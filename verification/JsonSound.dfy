// Every text the parser accepts is a layout of the value it returns: with LayoutRead, the
// parser accepts exactly the layouts.
module JsonSound {
  import opened Bytes
  import opened Json
  import opened JsonText

  // ---- Spaces and tokens ----

  lemma {:induction false} SkipSound(t: string) returns (before: string)
    ensures AllSpace(before) && t == before + Skip(t)
  {
    if t != "" && IsSpace(t[0]) {
      var more := SkipSound(t[1..]);
      before := [t[0]] + more;
    } else {
      before := "";
    }
  }

  lemma {:induction false} DigitsSound(t: string)
    ensures forall i :: 0 <= i < Digits(t) ==> InNumber(t[i])
    ensures Apart(t[Digits(t)..])
  {
    if t != "" && InNumber(t[0]) {
      DigitsSound(t[1..]);
      assert t[1..][Digits(t[1..])..] == t[Digits(t)..];
      forall i | 0 <= i < Digits(t)
        ensures InNumber(t[i])
      {
        assert i > 0 ==> t[i] == t[1..][i - 1];
      }
    }
  }

  // ---- Strings ----

  lemma PieceSound(t: string) returns (ch: Spelled)
    requires t != "" && t[0] != '"' && Piece(t).Some?
    ensures ProperChar(ch) && Piece(t).value == (StandsOne(ch), |SpellOne(ch)|)
    ensures t == SpellOne(ch) + t[|SpellOne(ch)|..]
  {
    if t[0] != '\\' {
      ch := Raw(t[0]);
      assert t[..1] == [t[0]];
    } else if t[1] == 'u' {
      ch := Unit(t[2..6]);
      assert "\\u" + t[2..6] == t[..6];
    } else {
      ch := Short(t[1]);
      assert ['\\', t[1]] == t[..2];
    }
    hide Hex4, Utf8, Escaped;
  }

  lemma {:induction false} BodySound(t: string) returns (chars: seq<Spelled>)
    requires StringBody(t).Ok?
    ensures ProperChars(chars) && StringBody(t).value == Stands(chars)
    ensures t == Spell(chars) + ("\"" + StringBody(t).rest)
    decreases |t|
  {
    if t[0] == '"' {
      chars := [];
      assert t == "\"" + t[1..];
      assert Spell([]) + t == t;
    } else {
      var ch := PieceSound(t);
      var n := |SpellOne(ch)|;
      PieceFirst(t);
      var more := BodySound(t[n..]);
      chars := [ch] + more;
      SpellStep(ch, more, "\"" + StringBody(t[n..]).rest);
      hide SpellOne, StandsOne, Piece, StringBody, ProperChar, Spell, Stands;
    }
  }

  lemma PieceFirst(t: string)
    requires t != "" && t[0] != '"' && StringBody(t).Ok?
    ensures Piece(t).Some?
    ensures StringBody(t) == Then(Piece(t).value.0, StringBody(t[Piece(t).value.1..]))
  {
    hide Piece;
  }

  lemma SpellStep(ch: Spelled, more: seq<Spelled>, rest: string)
    ensures Spell([ch] + more) + rest == SpellOne(ch) + (Spell(more) + rest)
    ensures Stands([ch] + more) == StandsOne(ch) + Stands(more)
    ensures ProperChar(ch) && ProperChars(more) ==> ProperChars([ch] + more)
  {
    assert ([ch] + more)[1..] == more;
    hide SpellOne, StandsOne, ProperChar;
  }

  lemma StringSound(t: string) returns (chars: seq<Spelled>)
    requires StringLiteral(t).Ok?
    ensures ProperChars(chars) && StringLiteral(t).value == Stands(chars)
    ensures t == Quoted(chars) + StringLiteral(t).rest
  {
    chars := BodySound(t[1..]);
    var rest := StringLiteral(t).rest;
    assert t == "\"" + (Spell(chars) + ("\"" + rest));
    assert "\"" + (Spell(chars) + ("\"" + rest)) == Quoted(chars) + rest;
  }

  // ---- Values ----

  /** The value read off the front of a text is laid out there. */
  lemma {:induction false} ValueSound(t: string) returns (l: Layout)
    requires Value(t).Ok?
    ensures Proper(l) && Meaning(l) == Value(t).value && t == Render(l, Value(t).rest)
    decreases |t|, 1
  {
    if t[0] == '{' {
      l := ObjectSound(t);
    } else if t[0] == '[' {
      l := ArraySound(t);
    } else if t[0] == '"' {
      var chars := StringSound(t);
      l := StringText(chars);
    } else if t[0] == 't' || t[0] == 'f' || t[0] == 'n' {
      l := LiteralSound(t);
    } else {
      l := NumberSound(t);
    }
  }

  lemma LiteralSound(t: string) returns (l: Layout)
    requires Value(t).Ok? && t[0] in {'t', 'f', 'n'}
    ensures Proper(l) && Meaning(l) == Value(t).value && t == Render(l, Value(t).rest)
  {
    l := if t[0] == 'n' then NullText else BoolText(t[0] == 't');
    var word := if t[0] == 't' then "true" else if t[0] == 'f' then "false" else "null";
    assert t == t[..|word|] + t[|word|..];
  }

  lemma NumberSound(t: string) returns (l: Layout)
    requires NumberToken(t).Ok?
    ensures Proper(l) && Meaning(l) == NumberToken(t).value && t == Render(l, NumberToken(t).rest)
    ensures Apart(NumberToken(t).rest)
  {
    DigitsSound(t);
    l := NumberText(t[..Digits(t)]);
    assert t == t[..Digits(t)] + t[Digits(t)..];
  }

  lemma ArraySound(t: string) returns (l: Layout)
    requires Value(t).Ok? && t[0] == '['
    ensures Proper(l) && Meaning(l) == Value(t).value && t == Render(l, Value(t).rest)
    decreases |t|, 0
  {
    var gap := SkipSound(t[1..]);
    var u := Skip(t[1..]);
    assert t == "[" + t[1..];
    if StartsWith(u, ']') {
      l := ArrayText(gap, NoItems);
      assert u == "]" + u[1..];
    } else {
      var items := ItemsSound(u);
      var first := items.(before := gap + items.before);
      l := ArrayText("", first);
      WithSpaceBefore(gap, items, Items(u).rest);
      hide Render, RenderItems, Items, Skip;
    }
  }

  lemma WithSpaceBefore(gap: string, items: ItemsText, rest: string)
    requires items.Item? && AllSpace(gap) && ProperItems(items)
    ensures var first := items.(before := gap + items.before);
            && ProperItems(first) && ItemValues(first) == ItemValues(items)
            && RenderItems(first, rest) == gap + RenderItems(items, rest)
  {
    var u := Render(items.value, items.after + ItemClose(items, rest));
    assert ItemClose(items.(before := gap + items.before), rest) == ItemClose(items, rest);
    assert gap + items.before + u == gap + (items.before + u);
  }

  lemma {:induction false} ItemsSound(t: string) returns (items: ItemsText)
    requires Items(t).Ok?
    ensures items.Item? && ProperItems(items) && ItemValues(items) == Items(t).value
    ensures t == RenderItems(items, Items(t).rest)
    decreases |t|, 2
  {
    var before := SkipSound(t);
    var v := Value(Skip(t));
    var value := ValueSound(Skip(t));
    var after := SkipSound(v.rest);
    var u := Skip(v.rest);
    var next := NoItems;
    if StartsWith(u, ',') {
      next := ItemsSound(u[1..]);
    }
    assert u == [u[0]] + u[1..];
    items := Item(before, value, after, next);
    assert next.NoItems? ==> ItemValues(items) == [Meaning(value)];
    hide Render, Value, Skip, Meaning;
  }

  lemma ObjectSound(t: string) returns (l: Layout)
    requires Value(t).Ok? && t[0] == '{'
    ensures Proper(l) && Meaning(l) == Value(t).value && t == Render(l, Value(t).rest)
    decreases |t|, 0
  {
    var gap := SkipSound(t[1..]);
    var u := Skip(t[1..]);
    assert t == "{" + t[1..];
    if StartsWith(u, '}') {
      l := ObjectText(gap, NoFields);
      assert u == "}" + u[1..];
    } else {
      var fields := MembersSound(u);
      var first := fields.(before := gap + fields.before);
      l := ObjectText("", first);
      WithSpaceBeforeField(gap, fields, Members(u).rest);
      hide Render, RenderFields, Members, Skip;
    }
  }

  lemma WithSpaceBeforeField(gap: string, fields: FieldsText, rest: string)
    requires fields.Field? && AllSpace(gap) && ProperFields(fields)
    ensures var first := fields.(before := gap + fields.before);
            && ProperFields(first) && FieldValues(first) == FieldValues(fields)
            && RenderFields(first, rest) == gap + RenderFields(fields, rest)
  {
    var u := Quoted(fields.key) + AfterKey(fields, FieldClose(fields, rest));
    var first := fields.(before := gap + fields.before);
    assert FieldClose(first, rest) == FieldClose(fields, rest);
    assert AfterKey(first, FieldClose(first, rest)) == AfterKey(fields, FieldClose(fields, rest));
    assert gap + fields.before + u == gap + (fields.before + u);
  }

  /** One member, up to behind its value: all of its field but what closes it. */
  lemma OneMemberSound(t: string) returns (f: FieldsText)
    requires OneMember(t).Ok?
    ensures f.Field? && f.next.NoFields? && f.after == "" && ProperFields(f)
    ensures OneMember(t).value == Member(Stands(f.key), Meaning(f.value))
    ensures t == f.before
                 + (Quoted(f.key) + (f.beforeColon + (":" + (f.afterColon + Render(f.value, OneMember(t).rest)))))
    decreases |t|, 2
  {
    var before := SkipSound(t);
    var key := StringLiteral(Skip(t));
    var chars := StringSound(Skip(t));
    var beforeColon := SkipSound(key.rest);
    var u := Skip(key.rest);
    assert u == ":" + u[1..];
    var afterColon := SkipSound(u[1..]);
    var value := ValueSound(Skip(u[1..]));
    f := Field(before, chars, beforeColon, afterColon, value, "", NoFields);
    hide Render, Value, Skip, Meaning, StringLiteral, Quoted;
  }

  lemma {:induction false} MembersSound(t: string) returns (fields: FieldsText)
    requires Members(t).Ok?
    ensures fields.Field? && ProperFields(fields) && FieldValues(fields) == Members(t).value
    ensures t == RenderFields(fields, Members(t).rest)
    decreases |t|, 3
  {
    var f := OneMemberSound(t);
    var m := OneMember(t);
    var after := SkipSound(m.rest);
    var u := Skip(m.rest);
    var next := NoFields;
    if StartsWith(u, ',') {
      next := MembersSound(u[1..]);
    }
    assert u == [u[0]] + u[1..];
    fields := f.(after := after, next := next);
    assert next.NoFields? ==> FieldValues(fields) == [m.value];
    hide Render, OneMember, Skip, Meaning, Quoted, Stands;
  }

  // ---- The language of the parser ----

  ghost predicate LaidOut(t: string, v: Json) {
    exists before, l, after ::
      AllSpace(before) && Proper(l) && AllSpace(after) && t == before + Render(l, after) && v == Meaning(l)
  }

  /** The parser accepts exactly the layouts, each as the value it lays out. */
  lemma AcceptedExactly(t: string, v: Json)
    ensures Document(t) == Some(v) <==> LaidOut(t, v)
  {
    if Document(t) == Some(v) {
      var before := SkipSound(t);
      var l := ValueSound(Skip(t));
      var after := SkipSound(Value(Skip(t)).rest);
      assert after + "" == after;
      hide Render, Value, Skip, Meaning, Proper;
      assert t == before + Render(l, after);
    }
    if LaidOut(t, v) {
      var before, l, after :|
        AllSpace(before) && Proper(l) && AllSpace(after) && t == before + Render(l, after) && v == Meaning(l);
      DocumentRead(before, l, after);
    }
  }
}
