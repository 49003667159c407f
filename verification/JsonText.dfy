// Writing JSON: escaping, and texts laid out with any whitespace. The parser reads every
// layout of every value back.
module JsonText {
  import opened Bytes
  import opened Json

  // ---- Strings ----

  function EscapeChar(c: char): string {
    match c
    case '"' => "\\\""
    case '\\' => "\\\\"
    case '\n' => "\\n"
    case '\t' => "\\t"
    case '\r' => "\\r"
    case _ => [c]
  }

  function Escape(s: string): string {
    if s == "" then "" else EscapeChar(s[0]) + Escape(s[1..])
  }

  /** jsonEscape. */
  method JsonEscape(s: string) returns (out: string)
    ensures out == Escape(s)
  {
    out := "";
    assert s[0..] == s;
    for i := 0 to |s|
      invariant out + Escape(s[i..]) == Escape(s)
    {
      EscapeStep(out, s, i);
      match s[i] {
        case '"' => out := out + "\\\"";
        case '\\' => out := out + "\\\\";
        case '\n' => out := out + "\\n";
        case '\t' => out := out + "\\t";
        case '\r' => out := out + "\\r";
        case _ => out := out + [s[i]];
      }
    }
    assert s[|s|..] == "" && out + "" == out;
  }

  lemma EscapeStep(out: string, s: string, i: nat)
    requires i < |s|
    ensures out + EscapeChar(s[i]) + Escape(s[i + 1..]) == out + Escape(s[i..])
  {
    assert s[i..][1..] == s[i + 1..];
  }

  // ---- Spellings ----

  /** A piece of a string literal: a character as it is, a letter behind a backslash, or four
      hexadecimal digits behind backslash and u. */
  datatype Spelled = Raw(c: char) | Short(letter: char) | Unit(digits: string)

  predicate ProperChar(ch: Spelled) {
    match ch
    case Raw(c) => c != '"' && c != '\\'
    case Short(letter) => Escaped(letter).Some?
    case Unit(digits) => |digits| == 4 && Hex4(digits).Some?
  }

  predicate ProperChars(chars: seq<Spelled>) {
    forall i :: 0 <= i < |chars| ==> ProperChar(chars[i])
  }

  function SpellOne(ch: Spelled): string {
    match ch
    case Raw(c) => [c]
    case Short(letter) => ['\\', letter]
    case Unit(digits) => "\\u" + digits
  }

  function StandsOne(ch: Spelled): string {
    match ch
    case Raw(c) => [c]
    case Short(letter) => if Escaped(letter).Some? then [Escaped(letter).value] else []
    case Unit(digits) => if |digits| == 4 && Hex4(digits).Some? then Utf8(Hex4(digits).value) else []
  }

  /** The text of a spelling, and the string it stands for. */
  function Spell(chars: seq<Spelled>): string {
    if chars == [] then "" else SpellOne(chars[0]) + Spell(chars[1..])
  }

  function Stands(chars: seq<Spelled>): string {
    if chars == [] then "" else StandsOne(chars[0]) + Stands(chars[1..])
  }

  lemma SpelledCharRead(ch: Spelled, u: string)
    requires ProperChar(ch)
    ensures StringBody(SpellOne(ch) + u) == Then(StandsOne(ch), StringBody(u))
  {
    var e := SpellOne(ch);
    var t := e + u;
    assert t[|e|..] == u;
    assert t[0] == e[0] && t[..1] == [e[0]];
    if ch.Unit? {
      assert t[1] == 'u' && t[2..6] == ch.digits;
    } else if ch.Short? {
      assert t[1] == ch.letter;
    }
    hide Utf8, Hex4;
    assert Piece(t) == Some((StandsOne(ch), |e|));
  }

  lemma {:induction false} SpelledBodyRead(chars: seq<Spelled>, rest: string)
    requires ProperChars(chars)
    ensures StringBody(Spell(chars) + ("\"" + rest)) == Ok(Stands(chars), rest)
  {
    if chars == [] {
      assert Spell(chars) + ("\"" + rest) == "\"" + rest;
      assert ("\"" + rest)[1..] == rest;
    } else {
      var u := Spell(chars[1..]) + ("\"" + rest);
      assert Spell(chars) + ("\"" + rest) == SpellOne(chars[0]) + u;
      SpelledBodyRead(chars[1..], rest);
      SpelledCharRead(chars[0], u);
      hide SpellOne, StandsOne, StringBody;
    }
  }

  function Quoted(chars: seq<Spelled>): string {
    "\"" + Spell(chars) + "\""
  }

  /** parseString reads every spelling of a string. */
  lemma SpellingRead(chars: seq<Spelled>, rest: string)
    requires ProperChars(chars)
    ensures StringLiteral(Quoted(chars) + rest) == Ok(Stands(chars), rest)
  {
    var body := Spell(chars) + ("\"" + rest);
    assert Quoted(chars) + rest == "\"" + body;
    assert ("\"" + body)[1..] == body;
    SpelledBodyRead(chars, rest);
  }

  function SpellingOf(c: char): (ch: Spelled)
    ensures ProperChar(ch) && SpellOne(ch) == EscapeChar(c) && StandsOne(ch) == [c]
  {
    match c
    case '"' => Short('"')
    case '\\' => Short('\\')
    case '\n' => Short('n')
    case '\t' => Short('t')
    case '\r' => Short('r')
    case _ => Raw(c)
  }

  /** The spelling jsonEscape chooses. */
  function Spelling(s: string): seq<Spelled> {
    seq(|s|, i requires 0 <= i < |s| => SpellingOf(s[i]))
  }

  lemma {:induction false} SpellingMeans(s: string)
    ensures ProperChars(Spelling(s)) && Spell(Spelling(s)) == Escape(s) && Stands(Spelling(s)) == s
  {
    if s != "" {
      assert Spelling(s)[1..] == Spelling(s[1..]);
      SpellingMeans(s[1..]);
      assert s == [s[0]] + s[1..];
      hide SpellOne, StandsOne, EscapeChar;
    }
  }

  lemma SpellingsMean()
    ensures forall s :: ProperChars(Spelling(s)) && Spell(Spelling(s)) == Escape(s) && Stands(Spelling(s)) == s
  {
    forall s
      ensures ProperChars(Spelling(s)) && Spell(Spelling(s)) == Escape(s) && Stands(Spelling(s)) == s
    {
      SpellingMeans(s);
    }
  }

  /** parseString reads back what jsonEscape printed, whatever the string. */
  lemma EscapeRoundTrip(s: string, rest: string)
    ensures StringLiteral("\"" + Escape(s) + "\"" + rest) == Ok(s, rest)
  {
    SpellingMeans(s);
    SpellingRead(Spelling(s), rest);
  }

  /** The escapes of section 7 of RFC 8259, for any text behind them, and what is no escape. */
  lemma EscapesRead(c: char, rest: string)
    ensures StringBody("\\\"" + rest) == Then("\"", StringBody(rest))
    ensures StringBody("\\\\" + rest) == Then("\\", StringBody(rest))
    ensures StringBody("\\/" + rest) == Then("/", StringBody(rest))
    ensures StringBody("\\b" + rest) == Then([0x08 as char], StringBody(rest))
    ensures StringBody("\\f" + rest) == Then([0x0C as char], StringBody(rest))
    ensures StringBody("\\n" + rest) == Then([0x0A as char], StringBody(rest))
    ensures StringBody("\\r" + rest) == Then([0x0D as char], StringBody(rest))
    ensures StringBody("\\t" + rest) == Then([0x09 as char], StringBody(rest))
    ensures c !in {'"', '\\', '/', 'b', 'f', 'n', 'r', 't', 'u'} ==> StringBody(['\\', c] + rest) == Fail
    ensures c != '"' && c != '\\' ==> StringBody([c] + rest) == Then([c], StringBody(rest))
  {
    OneEscape('"', '"', rest);
    OneEscape('\\', '\\', rest);
    OneEscape('/', '/', rest);
    OneEscape('b', 0x08 as char, rest);
    OneEscape('f', 0x0C as char, rest);
    OneEscape('n', 0x0A as char, rest);
    OneEscape('r', 0x0D as char, rest);
    OneEscape('t', 0x09 as char, rest);
    if c !in {'"', '\\', '/', 'b', 'f', 'n', 'r', 't', 'u'} {
      NoEscape(c, rest);
    }
    if c != '"' && c != '\\' {
      SpelledCharRead(Raw(c), rest);
    }
    hide StringBody;
  }

  lemma OneEscape(letter: char, c: char, rest: string)
    requires Escaped(letter) == Some(c) && letter != 'u'
    ensures StringBody(['\\', letter] + rest) == Then([c], StringBody(rest))
  {
    SpelledCharRead(Short(letter), rest);
  }

  lemma NoEscape(c: char, rest: string)
    requires c !in {'"', '\\', '/', 'b', 'f', 'n', 'r', 't', 'u'}
    ensures StringBody(['\\', c] + rest) == Fail
  {
    var t := ['\\', c] + rest;
    assert t[0] == '\\' && t[1] == c;
  }

  /** Hexadecimal digits of either case. */
  lemma HexDigitsRead(d: nat)
    requires d < 16
    ensures HexVal("0123456789abcdef"[d]) == Some(d) && HexVal("0123456789ABCDEF"[d]) == Some(d)
  {
  }

  // ---- Code units ----

  function HexDigit(d: nat): char
    requires d < 16
  {
    if d < 10 then ('0' as nat + d) as char else ('a' as nat + (d - 10)) as char
  }

  function HexText(code: nat): string
    requires code < 0x10000
  {
    [HexDigit(code / 4096), HexDigit(code / 256 % 16), HexDigit(code / 16 % 16), HexDigit(code % 16)]
  }

  /** Four digits after \u stand for the UTF-8 bytes of their code unit. */
  lemma CodeUnitRead(code: nat, rest: string)
    requires code < 0x10000
    ensures StringBody("\\u" + HexText(code) + rest) == Then(Utf8(code), StringBody(rest))
  {
    var t := "\\u" + HexText(code) + rest;
    assert t[2..6] == HexText(code) && t[6..] == rest && t[0] == '\\' && t[1] == 'u';
    HexRead(code);
    hide HexText, Hex4, Utf8;
    assert Piece(t) == Some((Utf8(code), 6));
  }

  lemma HexRead(code: nat)
    requires code < 0x10000
    ensures Hex4(HexText(code)) == Some(code)
  {
    var high, low := code / 256, code % 256;
    assert high / 16 == code / 4096 && high == high / 16 * 16 + high % 16;
    assert code / 16 == high * 16 + low / 16 && low == low / 16 * 16 + low % 16;
    assert code / 16 % 16 == low / 16 && code % 16 == low % 16;
    hide Hex4, HexDigit;
    HexDigits(code / 4096, code / 256 % 16, code / 16 % 16, code % 16);
  }

  lemma HexDigits(a: nat, b: nat, c: nat, d: nat)
    requires a < 16 && b < 16 && c < 16 && d < 16
    ensures Hex4([HexDigit(a), HexDigit(b), HexDigit(c), HexDigit(d)]) == Some(((a * 16 + b) * 16 + c) * 16 + d)
  {
    DigitRead(a);
    DigitRead(b);
    DigitRead(c);
    DigitRead(d);
    hide HexVal, HexDigit;
  }

  lemma DigitRead(d: nat)
    requires d < 16
    ensures HexVal(HexDigit(d)) == Some(d)
  {
  }

  /** The code point of a sequence of at most three bytes, by the table of section 3 of
      RFC 3629. */
  function CodePoint(s: string): int {
    if |s| == 1 then s[0] as int
    else if |s| == 2 then (s[0] as int - 0xC0) * 64 + (s[1] as int - 0x80)
    else if |s| == 3 then ((s[0] as int - 0xE0) * 64 + (s[1] as int - 0x80)) * 64 + (s[2] as int - 0x80)
    else -1
  }

  predicate In(c: char, low: nat, high: nat) {
    low <= c as int <= high
  }

  /** The bytes of one character, by the grammar of section 4 of RFC 3629. */
  predicate Utf8Char(s: string) {
    || (|s| == 1 && In(s[0], 0x00, 0x7F))
    || (|s| == 2 && In(s[0], 0xC2, 0xDF) && In(s[1], 0x80, 0xBF))
    || (|s| == 3 && In(s[2], 0x80, 0xBF) && (
          || (In(s[0], 0xE0, 0xE0) && In(s[1], 0xA0, 0xBF))
          || (In(s[0], 0xE1, 0xEC) && In(s[1], 0x80, 0xBF))
          || (In(s[0], 0xED, 0xED) && In(s[1], 0x80, 0x9F))
          || (In(s[0], 0xEE, 0xEF) && In(s[1], 0x80, 0xBF))))
    || (|s| == 4 && In(s[2], 0x80, 0xBF) && In(s[3], 0x80, 0xBF) && (
          || (In(s[0], 0xF0, 0xF0) && In(s[1], 0x90, 0xBF))
          || (In(s[0], 0xF1, 0xF3) && In(s[1], 0x80, 0xBF))
          || (In(s[0], 0xF4, 0xF4) && In(s[1], 0x80, 0x8F))))
  }

  predicate Surrogate(code: nat) {
    0xD800 <= code <= 0xDFFF
  }

  /** A code unit's bytes spell its number, and are a character exactly when it is no surrogate. */
  lemma Utf8IsRightlyFormed(code: nat)
    requires code < 0x10000
    ensures var s := Utf8(code);
            && CodePoint(s) == code && |s| == (if code < 0x80 then 1 else if code < 0x800 then 2 else 3)
            && In(s[0], 0, 0xEF) && forall i :: 1 <= i < |s| ==> In(s[i], 0x80, 0xBF)
    ensures Utf8Char(Utf8(code)) <==> !Surrogate(code)
  {
    SixBits(code);
  }

  /** The character that two surrogates stand for by section 7 of RFC 8259. */
  function Paired(high: nat, low: nat): nat
    requires 0xD800 <= high <= 0xDBFF && 0xDC00 <= low <= 0xDFFF
  {
    0x10000 + (high - 0xD800) * 0x400 + (low - 0xDC00)
  }

  /** A surrogate pair is not read as the character it stands for, but as two sequences of three
      bytes, neither of which is a character: for instance for Paired(0xD83D, 0xDE00), 0x1F600. */
  lemma PairNotCombined(high: nat, low: nat, rest: string)
    requires 0xD800 <= high <= 0xDBFF && 0xDC00 <= low <= 0xDFFF
    ensures StringLiteral("\"" + ("\\u" + HexText(high) + ("\\u" + HexText(low) + ("\"" + rest))))
         == Ok(Utf8(high) + Utf8(low), rest)
    ensures !Utf8Char(Utf8(high)) && !Utf8Char(Utf8(low)) && |Utf8(high) + Utf8(low)| == 6
    ensures !Utf8Char(Utf8(high) + Utf8(low)) && Paired(0xD83D, 0xDE00) == 0x1F600
  {
    Utf8IsRightlyFormed(high);
    Utf8IsRightlyFormed(low);
    assert |Utf8(high)| == 3 && |Utf8(low)| == 3;
    hide Utf8, HexText;
    var tail := "\"" + rest;
    var second := "\\u" + HexText(low) + tail;
    var body := "\\u" + HexText(high) + second;
    CodeUnitRead(high, second);
    CodeUnitRead(low, tail);
    assert ("\"" + body)[1..] == body && tail[1..] == rest;
    assert StringBody(tail) == Ok("", rest);
    hide StringBody;
    assert Utf8(high) + (Utf8(low) + "") == Utf8(high) + Utf8(low);
  }

  lemma SixBits(code: nat)
    requires code < 0x10000
    ensures code / 4096 < 16 && code / 64 % 64 < 64
    ensures code == (code / 4096 * 64 + code / 64 % 64) * 64 + code % 64
  {
    var top, rest := code / 4096, code % 4096;
    assert code / 64 == top * 64 + rest / 64;
    assert code / 64 % 64 == rest / 64 && code % 64 == rest % 64;
  }

  // ---- Layouts ----

  datatype Layout =
    | NullText
    | BoolText(b: bool)
    | NumberText(token: string)
    | StringText(chars: seq<Spelled>)
    | ArrayText(gap: string, items: ItemsText)        // the gap is used when it is empty
    | ObjectText(gap: string, fields: FieldsText)

  datatype ItemsText =
    | NoItems
    | Item(before: string, value: Layout, after: string, next: ItemsText)

  datatype FieldsText =
    | NoFields
    | Field(before: string, key: seq<Spelled>, beforeColon: string, afterColon: string, value: Layout, after: string,
            next: FieldsText)

  predicate AllSpace(s: string) {
    forall i :: 0 <= i < |s| ==> IsSpace(s[i])
  }

  predicate IsToken(s: string) {
    s != "" && forall i :: 0 <= i < |s| ==> InNumber(s[i])
  }

  predicate Proper(l: Layout) {
    match l
    case NumberText(token) => IsToken(token)
    case StringText(chars) => ProperChars(chars)
    case ArrayText(gap, items) => AllSpace(gap) && ProperItems(items)
    case ObjectText(gap, fields) => AllSpace(gap) && ProperFields(fields)
    case _ => true
  }

  predicate ProperItems(items: ItemsText) {
    match items
    case NoItems => true
    case Item(before, value, after, next) => AllSpace(before) && Proper(value) && AllSpace(after) && ProperItems(next)
  }

  predicate ProperFields(fields: FieldsText) {
    match fields
    case NoFields => true
    case Field(before, key, b, a, value, after, next) =>
      && AllSpace(before) && ProperChars(key) && AllSpace(b) && AllSpace(a)
      && Proper(value) && AllSpace(after) && ProperFields(next)
  }

  /** The text of a layout, followed by the rest of the document. */
  function Render(l: Layout, rest: string): string
    decreases l, 0
  {
    match l
    case NullText => "null" + rest
    case BoolText(b) => (if b then "true" else "false") + rest
    case NumberText(token) => token + rest
    case StringText(chars) => Quoted(chars) + rest
    case ArrayText(gap, items) => "[" + (if items.NoItems? then gap + ("]" + rest) else RenderItems(items, rest))
    case ObjectText(gap, fields) => "{" + (if fields.NoFields? then gap + ("}" + rest) else RenderFields(fields, rest))
  }

  /** The items from one on, with the closing bracket. */
  function RenderItems(items: ItemsText, rest: string): string
    requires items.Item?
    decreases items, 0
  {
    items.before + Render(items.value, items.after + ItemClose(items, rest))
  }

  function ItemClose(items: ItemsText, rest: string): string
    requires items.Item?
    decreases items.next, 1
  {
    if items.next.NoItems? then "]" + rest else "," + RenderItems(items.next, rest)
  }

  function RenderFields(fields: FieldsText, rest: string): string
    requires fields.Field?
    decreases fields, 0
  {
    fields.before + (Quoted(fields.key) + AfterKey(fields, FieldClose(fields, rest)))
  }

  function AfterKey(f: FieldsText, close: string): string
    requires f.Field?
    decreases f.value, 1
  {
    f.beforeColon + (":" + (f.afterColon + Render(f.value, f.after + close)))
  }

  function FieldClose(f: FieldsText, rest: string): string
    requires f.Field?
    decreases f.next, 1
  {
    if f.next.NoFields? then "}" + rest else "," + RenderFields(f.next, rest)
  }

  function Meaning(l: Layout): Json {
    match l
    case NullText => Null
    case BoolText(b) => Bool(b)
    case NumberText(token) => Number(token)
    case StringText(chars) => Str(Stands(chars))
    case ArrayText(_, items) => Arr(ItemValues(items))
    case ObjectText(_, fields) => Obj(FieldValues(fields))
  }

  function ItemValues(items: ItemsText): seq<Json> {
    match items
    case NoItems => []
    case Item(_, value, _, next) => [Meaning(value)] + ItemValues(next)
  }

  function FieldValues(fields: FieldsText): seq<Member> {
    match fields
    case NoFields => []
    case Field(_, key, _, _, value, _, next) => [Member(Stands(key), Meaning(value))] + FieldValues(next)
  }

  // ---- Reading a layout ----

  /** Text that a token cannot run into. */
  predicate Apart(rest: string) {
    rest == "" || !InNumber(rest[0])
  }

  lemma {:induction false} SkipSpaces(before: string, u: string)
    requires AllSpace(before)
    ensures Skip(before + u) == Skip(u)
  {
    if before == "" {
      assert before + u == u;
    } else {
      assert (before + u)[1..] == before[1..] + u;
      SkipSpaces(before[1..], u);
    }
  }

  lemma {:induction false} SkipTwice(t: string)
    ensures Skip(Skip(t)) == Skip(t)
  {
    if t != "" && IsSpace(t[0]) {
      SkipTwice(t[1..]);
    }
  }

  lemma {:induction false} TokenRead(token: string, rest: string)
    requires (forall i :: 0 <= i < |token| ==> InNumber(token[i])) && Apart(rest)
    ensures Digits(token + rest) == |token|
  {
    if token == "" {
      assert token + rest == rest;
    } else {
      assert (token + rest)[1..] == token[1..] + rest;
      TokenRead(token[1..], rest);
    }
  }

  lemma SpacesThenApart(after: string, u: string)
    requires AllSpace(after) && Apart(u)
    ensures Apart(after + u)
  {
    if after != "" {
      assert (after + u)[0] == after[0];
    } else {
      assert after + u == u;
    }
  }

  /** A value's text starts with no space and no closing bracket. */
  lemma RenderedStarts(l: Layout, rest: string)
    requires Proper(l)
    ensures var t := Render(l, rest);
            t != "" && Skip(t) == t && t[0] != ']'
  {
    var t := Render(l, rest);
    assert t != "" && !IsSpace(t[0]);
  }

  /** Every layout of a value is read as that value, up to exactly its end. */
  lemma {:induction false} LayoutRead(l: Layout, rest: string)
    requires Proper(l) && Apart(rest)
    ensures Value(Render(l, rest)) == Ok(Meaning(l), rest)
    decreases l
  {
    match l
    case NullText => LiteralRead("null", rest);
    case BoolText(b) => LiteralRead(if b then "true" else "false", rest);
    case NumberText(token) => NumberRead(token, rest);
    case StringText(chars) => StringRead(chars, rest);
    case ArrayText(gap, items) => ArrayRead(gap, items, rest);
    case ObjectText(gap, fields) => ObjectRead(gap, fields, rest);
  }

  lemma LiteralRead(word: string, rest: string)
    requires word in ["null", "true", "false"]
    ensures Value(word + rest) == Ok(if word == "null" then Null else Bool(word == "true"), rest)
  {
    var t := word + rest;
    assert t[0] == word[0] && t[..|word|] == word && t[|word|..] == rest;
  }

  lemma NumberRead(token: string, rest: string)
    requires IsToken(token) && Apart(rest)
    ensures Value(token + rest) == Ok(Number(token), rest)
  {
    var t := token + rest;
    TokenRead(token, rest);
    assert t[0] == token[0] && t[..|token|] == token && t[|token|..] == rest;
  }

  lemma StringRead(chars: seq<Spelled>, rest: string)
    requires ProperChars(chars)
    ensures StringLiteral(Quoted(chars) + rest) == Ok(Stands(chars), rest)
    ensures Value(Quoted(chars) + rest) == Ok(Str(Stands(chars)), rest)
  {
    SpellingRead(chars, rest);
    assert (Quoted(chars) + rest)[0] == '"';
  }

  lemma ArrayRead(gap: string, items: ItemsText, rest: string)
    requires AllSpace(gap) && ProperItems(items) && Apart(rest)
    ensures Value(Render(ArrayText(gap, items), rest)) == Ok(Arr(ItemValues(items)), rest)
    decreases items, 1
  {
    var t := Render(ArrayText(gap, items), rest);
    if items.NoItems? {
      var u := gap + ("]" + rest);
      assert t == "[" + u && t[1..] == u;
      SkipSpaces(gap, "]" + rest);
      assert ("]" + rest)[1..] == rest;
    } else {
      var u := RenderItems(items, rest);
      assert t == "[" + u && t[1..] == u;
      ItemsRead(items, rest);
      FirstItem(items, rest);
    }
  }

  /** Before the first item the parser skips spaces twice; the bracket is not closed there. */
  lemma FirstItem(items: ItemsText, rest: string)
    requires items.Item? && ProperItems(items)
    ensures var t := RenderItems(items, rest);
            !StartsWith(Skip(t), ']') && Items(Skip(t)) == Items(t)
  {
    var u := Render(items.value, items.after + ItemClose(items, rest));
    SkipSpaces(items.before, u);
    RenderedStarts(items.value, items.after + ItemClose(items, rest));
    SkipTwice(RenderItems(items, rest));
    hide Value, Render, RenderItems, Skip;
  }

  lemma {:induction false} ItemsRead(items: ItemsText, rest: string)
    requires items.Item? && ProperItems(items) && Apart(rest)
    ensures Items(RenderItems(items, rest)) == Ok(ItemValues(items), rest)
    decreases items, 0
  {
    var close := ItemClose(items, rest);
    var u := Render(items.value, items.after + close);
    assert Skip(RenderItems(items, rest)) == u by {
      SkipSpaces(items.before, u);
      RenderedStarts(items.value, items.after + close);
    }
    SpacesThenApart(items.after, close);
    LayoutRead(items.value, items.after + close);
    assert Skip(items.after + close) == close by {
      SkipSpaces(items.after, close);
    }
    CloseOfItems(items, rest);
    assert ItemValues(items) == [Meaning(items.value)] + ItemValues(items.next);
    if items.next.Item? {
      ItemsRead(items.next, rest);
    }
    hide Value, Render, RenderItems, ItemClose, Skip, Meaning;
    assert items.next.NoItems? ==> ItemValues(items) == [Meaning(items.value)];
  }

  lemma CloseOfItems(items: ItemsText, rest: string)
    requires items.Item?
    ensures var close := ItemClose(items, rest);
            if items.next.NoItems? then StartsWith(close, ']') && close[1..] == rest
            else StartsWith(close, ',') && close[1..] == RenderItems(items.next, rest)
  {
  }

  lemma ObjectRead(gap: string, fields: FieldsText, rest: string)
    requires AllSpace(gap) && ProperFields(fields) && Apart(rest)
    ensures Value(Render(ObjectText(gap, fields), rest)) == Ok(Obj(FieldValues(fields)), rest)
    decreases fields, 1
  {
    var t := Render(ObjectText(gap, fields), rest);
    if fields.NoFields? {
      var u := gap + ("}" + rest);
      assert t == "{" + u && t[1..] == u;
      SkipSpaces(gap, "}" + rest);
      assert ("}" + rest)[1..] == rest;
    } else {
      var u := RenderFields(fields, rest);
      assert t == "{" + u && t[1..] == u;
      FieldsRead(fields, rest);
      FirstField(fields, rest);
    }
  }

  /** Before the first member the parser skips spaces twice; the brace is not closed there. */
  lemma FirstField(fields: FieldsText, rest: string)
    requires fields.Field? && ProperFields(fields)
    ensures var t := RenderFields(fields, rest);
            !StartsWith(Skip(t), '}') && Members(Skip(t)) == Members(t)
  {
    var u := Quoted(fields.key) + AfterKey(fields, FieldClose(fields, rest));
    SkipSpaces(fields.before, u);
    assert u[0] == '"';
    SkipTwice(RenderFields(fields, rest));
    hide Value, Render, RenderFields;
  }

  lemma OneFieldRead(f: FieldsText, rest: string)
    requires f.Field? && ProperFields(f)
    requires var left := f.after + FieldClose(f, rest);
             Value(Render(f.value, left)) == Ok(Meaning(f.value), left)
    ensures OneMember(RenderFields(f, rest)) ==
            Ok(Member(Stands(f.key), Meaning(f.value)), f.after + FieldClose(f, rest))
  {
    var u := Quoted(f.key) + AfterKey(f, FieldClose(f, rest));
    SkipSpaces(f.before, u);
    assert u[0] == '"';
    StringRead(f.key, AfterKey(f, FieldClose(f, rest)));
    RenderedStarts(f.value, f.after + FieldClose(f, rest));
    var v := Render(f.value, f.after + FieldClose(f, rest));
    SkipSpaces(f.beforeColon, ":" + (f.afterColon + v));
    assert (":" + (f.afterColon + v))[1..] == f.afterColon + v;
    SkipSpaces(f.afterColon, v);
    hide Value, Render, StringLiteral, FieldClose, Quoted;
  }

  lemma {:induction false} FieldsRead(fields: FieldsText, rest: string)
    requires fields.Field? && ProperFields(fields) && Apart(rest)
    ensures Members(RenderFields(fields, rest)) == Ok(FieldValues(fields), rest)
    decreases fields, 0
  {
    var close := FieldClose(fields, rest);
    SpacesThenApart(fields.after, close);
    LayoutRead(fields.value, fields.after + close);
    OneFieldRead(fields, rest);
    assert Skip(fields.after + close) == close by {
      SkipSpaces(fields.after, close);
    }
    CloseOfFields(fields, rest);
    assert FieldValues(fields) == [Member(Stands(fields.key), Meaning(fields.value))] + FieldValues(fields.next);
    if fields.next.Field? {
      FieldsRead(fields.next, rest);
    }
    hide Value, Render, RenderFields, OneMember, FieldClose, Skip, Meaning;
    assert fields.next.NoFields? ==> FieldValues(fields) == [Member(Stands(fields.key), Meaning(fields.value))];
  }

  lemma CloseOfFields(f: FieldsText, rest: string)
    requires f.Field?
    ensures var close := FieldClose(f, rest);
            if f.next.NoFields? then StartsWith(close, '}') && close[1..] == rest
            else StartsWith(close, ',') && close[1..] == RenderFields(f.next, rest)
  {
  }

  /** A document is read as the value it lays out. */
  lemma DocumentRead(before: string, l: Layout, after: string)
    requires AllSpace(before) && Proper(l) && AllSpace(after)
    ensures Document(before + Render(l, after)) == Some(Meaning(l))
  {
    SkipSpaces(before, Render(l, after));
    RenderedStarts(l, after);
    assert after + "" == after;
    SpacesThenApart(after, "");
    LayoutRead(l, after);
    SkipSpaces(after, "");
  }
}
