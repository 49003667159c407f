// The configuration's JSON parser: a grammar on texts, and the recursive descent over a
// position that implements it. A text is a string of characters of which the bytes of a file
// are the first 256.
module Json {
  import opened Bytes

  /** A number keeps its token. */
  datatype Json =
    | Null
    | Bool(b: bool)
    | Number(token: string)
    | Str(str: string)
    | Arr(items: seq<Json>)
    | Obj(members: seq<Member>)

  datatype Member = Member(key: string, value: Json)

  /** The first member with the key, as Json::get finds it. */
  function Get(members: seq<Member>, key: string): Option<Json> {
    if members == [] then None
    else if members[0].key == key then Some(members[0].value)
    else Get(members[1..], key)
  }

  // ---- The grammar ----

  /** What is read from the front of a text, and the text after it. */
  datatype Parse<+T> = Fail | Ok(value: T, rest: string)

  predicate IsSpace(c: char) {
    c == ' ' || 9 as char <= c <= 13 as char
  }

  predicate IsDigit(c: char) {
    '0' <= c <= '9'
  }

  predicate InNumber(c: char) {
    IsDigit(c) || c == '.' || c == 'e' || c == 'E' || c == '+' || c == '-'
  }

  function Skip(t: string): (r: string)
    ensures |r| <= |t|
  {
    if t != "" && IsSpace(t[0]) then Skip(t[1..]) else t
  }

  function Digits(t: string): (n: nat)
    ensures n <= |t|
  {
    if t != "" && InNumber(t[0]) then 1 + Digits(t[1..]) else 0
  }

  function HexVal(c: char): Option<nat> {
    if '0' <= c <= '9' then Some(c as nat - '0' as nat)
    else if 'a' <= c <= 'f' then Some(10 + c as nat - 'a' as nat)
    else if 'A' <= c <= 'F' then Some(10 + c as nat - 'A' as nat)
    else None
  }

  /** The value of four hexadecimal digits. */
  function Hex4(t: string): (code: Option<nat>)
    requires |t| == 4
    ensures code.Some? ==> code.value < 0x10000
  {
    var a, b, c, d := HexVal(t[0]), HexVal(t[1]), HexVal(t[2]), HexVal(t[3]);
    if a.Some? && b.Some? && c.Some? && d.Some? then
      Some(((a.value * 16 + b.value) * 16 + c.value) * 16 + d.value)
    else None
  }

  /** A code unit in UTF-8, as one character per byte. */
  function Utf8(code: nat): string
    requires code < 0x10000
  {
    if code < 0x80 then [code as char]
    else if code < 0x800 then [(0xC0 + code / 64) as char, (0x80 + code % 64) as char]
    else [(0xE0 + code / 4096) as char, (0x80 + code / 64 % 64) as char, (0x80 + code % 64) as char]
  }

  function Escaped(c: char): Option<char> {
    match c
    case '"' => Some('"')
    case '\\' => Some('\\')
    case '/' => Some('/')
    case 'n' => Some('\n')
    case 't' => Some('\t')
    case 'r' => Some('\r')
    case 'b' => Some(8 as char)
    case 'f' => Some(12 as char)
    case _ => None
  }

  /** A piece of a string literal: what it stands for, and how much text it takes. */
  function Piece(t: string): (p: Option<(string, nat)>)
    requires t != ""
    ensures p.Some? ==> 0 < p.value.1 <= |t|
  {
    if t[0] != '\\' then Some((t[..1], 1))
    else if |t| < 2 then None
    else if t[1] == 'u' then
      if |t| < 6 || Hex4(t[2..6]).None? then None else Some((Utf8(Hex4(t[2..6]).value), 6))
    else if Escaped(t[1]).Some? then Some(([Escaped(t[1]).value], 2))
    else None
  }

  /** A string literal after its opening quote. */
  function StringBody(t: string): (p: Parse<string>)
    ensures p.Ok? ==> |p.rest| < |t|
  {
    if t == "" then Fail
    else if t[0] == '"' then Ok("", t[1..])
    else
      var piece := Piece(t);
      if piece.None? then Fail else Then(piece.value.0, StringBody(t[piece.value.1..]))
  }

  function Then<T>(front: seq<T>, p: Parse<seq<T>>): Parse<seq<T>> {
    match p
    case Fail => Fail
    case Ok(value, rest) => Ok(front + value, rest)
  }

  function StringLiteral(t: string): (p: Parse<string>)
    ensures p.Ok? ==> |p.rest| < |t|
  {
    if t == "" || t[0] != '"' then Fail else StringBody(t[1..])
  }

  function Literal(t: string, word: string, value: Json): Parse<Json> {
    if |t| >= |word| && t[..|word|] == word then Ok(value, t[|word|..]) else Fail
  }

  function NumberToken(t: string): (p: Parse<Json>)
    ensures p.Ok? ==> |p.rest| < |t|
  {
    var n := Digits(t);
    if n == 0 then Fail else Ok(Number(t[..n]), t[n..])
  }

  function Value(t: string): (p: Parse<Json>)
    ensures p.Ok? ==> |p.rest| < |t|
    decreases |t|, 1
  {
    if t == "" then Fail
    else if t[0] == '{' then
      var u := Skip(t[1..]);
      if StartsWith(u, '}') then Ok(Obj([]), u[1..])
      else
        var p := Members(u);
        if p.Ok? then Ok(Obj(p.value), p.rest) else Fail
    else if t[0] == '[' then
      var u := Skip(t[1..]);
      if StartsWith(u, ']') then Ok(Arr([]), u[1..])
      else
        var p := Items(u);
        if p.Ok? then Ok(Arr(p.value), p.rest) else Fail
    else if t[0] == '"' then
      var p := StringLiteral(t);
      if p.Ok? then Ok(Str(p.value), p.rest) else Fail
    else if t[0] == 't' then Literal(t, "true", Bool(true))
    else if t[0] == 'f' then Literal(t, "false", Bool(false))
    else if t[0] == 'n' then Literal(t, "null", Null)
    else NumberToken(t)
  }

  predicate StartsWith(t: string, c: char) {
    t != "" && t[0] == c
  }

  /** One or more items and the closing bracket. */
  function Items(t: string): (p: Parse<seq<Json>>)
    ensures p.Ok? ==> |p.rest| < |t|
    decreases |t|, 3
  {
    var v := Value(Skip(t));
    if v.Fail? then Fail
    else
      var u := Skip(v.rest);
      if StartsWith(u, ']') then Ok([v.value], u[1..])
      else if StartsWith(u, ',') then Then([v.value], Items(u[1..]))
      else Fail
  }

  function OneMember(t: string): (p: Parse<Member>)
    ensures p.Ok? ==> |p.rest| < |t|
    decreases |t|, 2
  {
    var key := StringLiteral(Skip(t));
    if key.Fail? then Fail
    else
      var u := Skip(key.rest);
      if !StartsWith(u, ':') then Fail
      else
        var v := Value(Skip(u[1..]));
        if v.Fail? then Fail else Ok(Member(key.value, v.value), v.rest)
  }

  /** One or more members and the closing brace. */
  function Members(t: string): (p: Parse<seq<Member>>)
    ensures p.Ok? ==> |p.rest| < |t|
    decreases |t|, 3
  {
    var m := OneMember(t);
    if m.Fail? then Fail
    else
      var u := Skip(m.rest);
      if StartsWith(u, '}') then Ok([m.value], u[1..])
      else if StartsWith(u, ',') then Then([m.value], Members(u[1..]))
      else Fail
  }

  function Document(t: string): Option<Json> {
    var v := Value(Skip(t));
    if v.Ok? && Skip(v.rest) == "" then Some(v.value) else None
  }

  // ---- The parser ----

  /** The parser's answer is what the grammar reads, and its position is behind it. */
  predicate Reads<T(==)>(result: Option<T>, text: string, pos: nat, p: Parse<T>)
  {
    && pos <= |text|
    && (result.None? <==> p.Fail?)
    && (p.Ok? ==> result == Some(p.value) && text[pos..] == p.rest)
  }

  lemma SkipStep(s: string, pos: nat)
    requires pos <= |s|
    ensures Skip(s[pos..]) == if pos < |s| && IsSpace(s[pos]) then Skip(s[pos + 1..]) else s[pos..]
  {
    if pos < |s| {
      assert s[pos..][1..] == s[pos + 1..];
    }
  }

  lemma DigitsStep(s: string, pos: nat)
    requires pos <= |s|
    ensures Digits(s[pos..]) == if pos < |s| && InNumber(s[pos]) then 1 + Digits(s[pos + 1..]) else 0
  {
    if pos < |s| {
      assert s[pos..][1..] == s[pos + 1..];
    }
  }

  lemma ThenThen<T>(a: seq<T>, b: seq<T>, p: Parse<seq<T>>)
    ensures Then(a, Then(b, p)) == Then(a + b, p)
  {
    if p.Ok? {
      assert a + (b + p.value) == a + b + p.value;
    }
  }

  /** A string body read up to pos: what was read so far and what is still to come. */
  lemma BodyEnd(whole: Parse<string>, out: string, s: string, pos: nat)
    requires pos <= |s| && whole == Then(out, StringBody(s[pos..]))
    ensures pos == |s| ==> whole == Fail
    ensures pos < |s| && s[pos] == '"' ==> whole == Ok(out, s[pos + 1..])
  {
    if pos < |s| {
      assert s[pos..][1..] == s[pos + 1..];
    }
    assert out + "" == out;
  }

  lemma BodyPlain(whole: Parse<string>, out: string, s: string, pos: nat)
    requires pos < |s| && whole == Then(out, StringBody(s[pos..])) && s[pos] != '"' && s[pos] != '\\'
    ensures whole == Then(out + [s[pos]], StringBody(s[pos + 1..]))
  {
    var t := s[pos..];
    assert t[1..] == s[pos + 1..] && t[..1] == [s[pos]];
    ThenThen(out, [s[pos]], StringBody(s[pos + 1..]));
  }

  lemma BodyEscape(whole: Parse<string>, out: string, s: string, pos: nat)
    requires pos < |s| && whole == Then(out, StringBody(s[pos..])) && s[pos] == '\\'
    ensures var piece := Piece(s[pos..]);
            whole == if piece.None? then Fail
                     else Then(out + piece.value.0, StringBody(s[pos + piece.value.1..]))
  {
    var t := s[pos..];
    if Piece(t).Some? {
      var n := Piece(t).value.1;
      assert t[n..] == s[pos + n..];
      ThenThen(out, Piece(t).value.0, StringBody(s[pos + n..]));
    }
  }

  class Parser {
    const s: string
    var pos: nat

    constructor (s: string)
      ensures this.s == s && pos == 0
    {
      this.s := s;
      pos := 0;
    }

    method ParseDocument() returns (r: Option<Json>)
      requires pos == 0
      modifies this`pos
      ensures r == Document(s)
    {
      assert s[0..] == s;
      SkipWs();
      r := ParseValue();
      if r.None? {
        return;
      }
      SkipWs();
      if pos != |s| {
        return None;
      }
    }

    method SkipWs()
      requires pos <= |s|
      modifies this`pos
      ensures old(pos) <= pos <= |s| && s[pos..] == Skip(s[old(pos)..])
    {
      while pos < |s| && IsSpace(s[pos])
        invariant old(pos) <= pos <= |s| && Skip(s[pos..]) == Skip(s[old(pos)..])
      {
        SkipStep(s, pos);
        pos := pos + 1;
      }
      SkipStep(s, pos);
    }

    method Consume(c: char) returns (ok: bool)
      requires pos <= |s|
      modifies this`pos
      ensures pos <= |s| && (ok <==> StartsWith(s[old(pos)..], c))
      ensures if ok then pos == old(pos) + 1 && s[pos..] == s[old(pos)..][1..] else pos == old(pos)
    {
      if pos < |s| && s[pos] == c {
        pos := pos + 1;
        return true;
      }
      return false;
    }

    method ParseLiteral(word: string, value: Json) returns (r: Option<Json>)
      requires pos <= |s|
      modifies this`pos
      ensures old(pos) <= pos && Reads(r, s, pos, Literal(s[old(pos)..], word, value))
    {
      if |s| - pos < |word| || s[pos..pos + |word|] != word {
        assert |s| - pos >= |word| ==> s[pos..][..|word|] == s[pos..pos + |word|];
        return None;
      }
      assert s[pos..][..|word|] == s[pos..pos + |word|];
      assert s[pos..][|word|..] == s[pos + |word|..];
      pos := pos + |word|;
      return Some(value);
    }

    method ParseNumber() returns (r: Option<Json>)
      requires pos <= |s|
      modifies this`pos
      ensures old(pos) <= pos && Reads(r, s, pos, NumberToken(s[old(pos)..]))
    {
      hide Digits;
      var start := pos;
      if pos < |s| && s[pos] == '-' {
        DigitsStep(s, pos);
        pos := pos + 1;
      }
      while pos < |s| && InNumber(s[pos])
        invariant start <= pos <= |s| && Digits(s[start..]) == pos - start + Digits(s[pos..])
      {
        DigitsStep(s, pos);
        pos := pos + 1;
      }
      DigitsStep(s, pos);
      if pos == start {
        return None;
      }
      assert s[start..][..pos - start] == s[start..pos];
      assert s[start..][pos - start..] == s[pos..];
      return Some(Number(s[start..pos]));
    }

    method ParseString() returns (r: Option<string>)
      requires pos <= |s|
      modifies this`pos
      ensures old(pos) <= pos && Reads(r, s, pos, StringLiteral(s[old(pos)..]))
    {
      var quote := Consume('"');
      if !quote {
        return None;
      }
      r := ParseStringBody();
    }

    method ParseStringBody() returns (r: Option<string>)
      requires pos <= |s|
      modifies this`pos
      ensures old(pos) <= pos && Reads(r, s, pos, StringBody(s[old(pos)..]))
    {
      hide StringBody, Piece, Then;
      var out := "";
      ghost var whole := StringBody(s[pos..]);
      ThenNothing(whole);
      while pos < |s|
        invariant old(pos) <= pos <= |s| && whole == Then(out, StringBody(s[pos..]))
        decreases |s| - pos
      {
        var c := s[pos];
        pos := pos + 1;
        if c == '"' {
          BodyEnd(whole, out, s, pos - 1);
          return Some(out);
        }
        if c == '\\' {
          BodyEscape(whole, out, s, pos - 1);
          var piece := ParseEscape();
          if piece.None? {
            return None;
          }
          out := out + piece.value;
        } else {
          BodyPlain(whole, out, s, pos - 1);
          out := out + [c];
        }
      }
      BodyEnd(whole, out, s, pos);
      return None;
    }

    /** What follows a backslash. */
    method ParseEscape() returns (r: Option<string>)
      requires 0 < pos <= |s| && s[pos - 1] == '\\'
      modifies this`pos
      ensures old(pos) <= pos <= |s|
      ensures r == if Piece(s[old(pos) - 1..]).Some? then Some(Piece(s[old(pos) - 1..]).value.0) else None
      ensures r.Some? ==> pos == old(pos) - 1 + Piece(s[old(pos) - 1..]).value.1
    {
      ghost var t := s[pos - 1..];
      if pos >= |s| {
        return None;
      }
      var esc := s[pos];
      assert t[1] == esc;
      pos := pos + 1;
      if esc == 'u' {
        if pos + 4 > |s| {
          return None;
        }
        assert t[2..6] == s[pos..pos + 4];
        var code, k := 0, 0;
        while k < 4
          invariant 0 <= k <= 4 && pos == old(pos) + 1 + k
          invariant forall j :: 0 <= j < k ==> HexVal(t[2..6][j]).Some?
          invariant code == HexPrefix(t[2..6], k)
        {
          var v := HexVal(s[pos]);
          pos := pos + 1;
          assert t[2..6][k] == s[pos - 1];
          if v.None? {
            return None;
          }
          code := code * 16 + v.value;
          k := k + 1;
        }
        HexPrefixIsHex4(t[2..6]);
        return Some(Utf8(code));
      }
      var c := Escaped(esc);
      if c.None? {
        return None;
      }
      return Some([c.value]);
    }

    method ParseValue() returns (r: Option<Json>)
      requires pos <= |s|
      modifies this`pos
      ensures old(pos) <= pos && Reads(r, s, pos, Value(s[old(pos)..]))
      decreases |s| - pos, 1
    {
      if pos >= |s| {
        return None;
      }
      var c := s[pos];
      if c == '{' {
        r := ParseObject();
      } else if c == '[' {
        r := ParseArray();
      } else if c == '"' {
        var str := ParseString();
        r := if str.Some? then Some(Str(str.value)) else None;
      } else if c == 't' {
        r := ParseLiteral("true", Bool(true));
      } else if c == 'f' {
        r := ParseLiteral("false", Bool(false));
      } else if c == 'n' {
        r := ParseLiteral("null", Null);
      } else {
        r := ParseNumber();
      }
    }

    method ParseArray() returns (r: Option<Json>)
      requires pos < |s| && s[pos] == '['
      modifies this`pos
      ensures old(pos) <= pos && Reads(r, s, pos, Value(s[old(pos)..]))
      decreases |s| - pos, 0
    {
      var start := pos;
      var bracket := Consume('[');
      SkipWs();
      var empty := Consume(']');
      if empty {
        return Some(Arr([]));
      }
      var items: seq<Json> := [];
      ghost var whole := Items(s[pos..]);
      ThenNothing(whole);
      while true
        invariant start < pos <= |s| && whole == Then(items, Items(s[pos..]))
        decreases |s| - pos
      {
        ghost var at := pos;
        SkipWs();
        var v := ParseValue();
        if v.None? {
          return None;
        }
        items := items + [v.value];
        SkipWs();
        var closed := Consume(']');
        if closed {
          return Some(Arr(items));
        }
        var comma := Consume(',');
        if !comma {
          return None;
        }
        ThenThen(items[..|items| - 1], [v.value], Items(s[pos..]));
      }
    }

    method ParseObject() returns (r: Option<Json>)
      requires pos < |s| && s[pos] == '{'
      modifies this`pos
      ensures old(pos) <= pos && Reads(r, s, pos, Value(s[old(pos)..]))
      decreases |s| - pos, 0
    {
      hide OneMember, Skip;
      var start := pos;
      var bracket := Consume('{');
      SkipWs();
      var empty := Consume('}');
      if empty {
        return Some(Obj([]));
      }
      var members: seq<Member> := [];
      ghost var whole := Members(s[pos..]);
      ThenNothing(whole);
      while true
        invariant start < pos <= |s| && whole == Then(members, Members(s[pos..]))
        decreases |s| - pos
      {
        var member := ParseMember();
        if member.None? {
          return None;
        }
        members := members + [member.value];
        SkipWs();
        var closed := Consume('}');
        if closed {
          return Some(Obj(members));
        }
        var comma := Consume(',');
        if !comma {
          return None;
        }
        ThenThen(members[..|members| - 1], [member.value], Members(s[pos..]));
      }
    }

    /** The part of parseObject's loop that reads one key and its value. */
    method ParseMember() returns (r: Option<Member>)
      requires pos <= |s|
      modifies this`pos
      ensures old(pos) <= pos && Reads(r, s, pos, OneMember(s[old(pos)..]))
      decreases |s| - pos, 2
    {
      SkipWs();
      var key := ParseString();
      if key.None? {
        return None;
      }
      SkipWs();
      var colon := Consume(':');
      if !colon {
        return None;
      }
      SkipWs();
      var v := ParseValue();
      if v.None? {
        return None;
      }
      return Some(Member(key.value, v.value));
    }
  }

  lemma ThenNothing<T>(p: Parse<seq<T>>)
    ensures Then([], p) == p
  {
    if p.Ok? {
      assert [] + p.value == p.value;
    }
  }

  function HexPrefix(t: string, k: nat): nat
    requires k <= |t| && forall j :: 0 <= j < k ==> HexVal(t[j]).Some?
  {
    if k == 0 then 0 else HexPrefix(t, k - 1) * 16 + HexVal(t[k - 1]).value
  }

  lemma HexPrefixIsHex4(t: string)
    requires |t| == 4 && forall j :: 0 <= j < 4 ==> HexVal(t[j]).Some?
    ensures Hex4(t) == Some(HexPrefix(t, 4))
  {
    assert HexPrefix(t, 1) == HexVal(t[0]).value;
    assert HexPrefix(t, 2) == HexPrefix(t, 1) * 16 + HexVal(t[1]).value;
    assert HexPrefix(t, 3) == HexPrefix(t, 2) * 16 + HexVal(t[2]).value;
  }
}
