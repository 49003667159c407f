// JSON as RFC 8259 has it, character encoding aside, and when the printed configuration is such
// a text. The parser is laxer: it takes control characters in strings, more whitespace and
// any run of number characters.
module JsonStandard {
  import opened Bytes
  import opened Json
  import opened JsonText
  import opened Decimal
  import opened Config

  // ---- The grammar ----

  /** Section 2 of RFC 8259. */
  predicate WhiteSpace(s: string) {
    forall i :: 0 <= i < |s| ==> s[i] == ' ' || s[i] == '\t' || s[i] == '\n' || s[i] == '\r'
  }

  /** Section 7: a character below the space has to be escaped. */
  predicate StandardChar(ch: Spelled) {
    ProperChar(ch) && (ch.Raw? ==> ch.c >= ' ')
  }

  predicate StandardChars(chars: seq<Spelled>) {
    forall i :: 0 <= i < |chars| ==> StandardChar(chars[i])
  }

  predicate SomeDigits(s: string) {
    s != "" && AllDigits(s)
  }

  /** Section 6. */
  predicate NumberParts(sign: string, whole: string, fraction: string, exponent: string) {
    && (sign == "" || sign == "-")
    && SomeDigits(whole) && (|whole| > 1 ==> whole[0] != '0')
    && (fraction == "" || (fraction[0] == '.' && SomeDigits(fraction[1..])))
    && (exponent == "" || (
          && (exponent[0] == 'e' || exponent[0] == 'E')
          && (SomeDigits(exponent[1..])
              || (|exponent| > 1 && (exponent[1] == '+' || exponent[1] == '-') && SomeDigits(exponent[2..])))))
  }

  ghost predicate StandardNumber(token: string) {
    exists sign, whole, fraction, exponent ::
      NumberParts(sign, whole, fraction, exponent) && token == sign + whole + fraction + exponent
  }

  ghost predicate Standard(l: Layout) {
    match l
    case NumberText(token) => StandardNumber(token)
    case StringText(chars) => StandardChars(chars)
    case ArrayText(gap, items) => WhiteSpace(gap) && StandardItems(items)
    case ObjectText(gap, fields) => WhiteSpace(gap) && StandardFields(fields)
    case _ => true
  }

  ghost predicate StandardItems(items: ItemsText) {
    match items
    case NoItems => true
    case Item(before, value, after, next) =>
      WhiteSpace(before) && Standard(value) && WhiteSpace(after) && StandardItems(next)
  }

  ghost predicate StandardFields(fields: FieldsText) {
    match fields
    case NoFields => true
    case Field(before, key, b, a, value, after, next) =>
      && WhiteSpace(before) && StandardChars(key) && WhiteSpace(b) && WhiteSpace(a)
      && Standard(value) && WhiteSpace(after) && StandardFields(next)
  }

  ghost predicate StandardText(text: string) {
    exists before, l, after ::
      WhiteSpace(before) && Standard(l) && WhiteSpace(after) && text == before + Render(l, after)
  }

  // ---- The parser reads every such text ----

  lemma NumberIsToken(token: string)
    requires StandardNumber(token)
    ensures IsToken(token)
  {
    var sign, whole, fraction, exponent :|
      NumberParts(sign, whole, fraction, exponent) && token == sign + whole + fraction + exponent;
    assert forall i :: 2 <= i < |exponent| ==> exponent[i] == exponent[2..][i - 2];
    assert forall i :: 1 <= i < |exponent| ==> exponent[i] == exponent[1..][i - 1];
    assert forall i :: 1 <= i < |fraction| ==> fraction[i] == fraction[1..][i - 1];
  }

  lemma {:induction false} StandardIsProper(l: Layout)
    requires Standard(l)
    ensures Proper(l)
    decreases l
  {
    match l
    case NullText =>
    case BoolText(b) =>
    case NumberText(token) => NumberIsToken(token);
    case StringText(chars) =>
    case ArrayText(gap, items) => StandardItemsProper(items);
    case ObjectText(gap, fields) => StandardFieldsProper(fields);
  }

  lemma {:induction false} StandardItemsProper(items: ItemsText)
    requires StandardItems(items)
    ensures ProperItems(items)
    decreases items
  {
    hide Standard, Proper;
    if items.Item? {
      StandardIsProper(items.value);
      StandardItemsProper(items.next);
    }
  }

  lemma {:induction false} StandardFieldsProper(fields: FieldsText)
    requires StandardFields(fields)
    ensures ProperFields(fields)
    decreases fields
  {
    hide Standard, Proper;
    if fields.Field? {
      StandardIsProper(fields.value);
      StandardFieldsProper(fields.next);
    }
  }

  lemma StandardTextIsRead(text: string)
    requires StandardText(text)
    ensures Document(text).Some?
  {
    hide Standard, Render, Proper, Document;
    var before, l, after :| WhiteSpace(before) && Standard(l) && WhiteSpace(after) && text == before + Render(l, after);
    StandardIsProper(l);
    DocumentRead(before, l, after);
  }

  // ---- Such a text has no control characters but whitespace ----

  predicate Clean(s: string) {
    forall i :: 0 <= i < |s| ==> s[i] >= ' ' || s[i] == '\t' || s[i] == '\n' || s[i] == '\r'
  }

  predicate CleanLayout(l: Layout) {
    match l
    case NumberText(token) => Clean(token)
    case StringText(chars) => Clean(Spell(chars))
    case ArrayText(gap, items) => (items.NoItems? ==> Clean(gap)) && CleanItems(items)
    case ObjectText(gap, fields) => (fields.NoFields? ==> Clean(gap)) && CleanFields(fields)
    case _ => true
  }

  predicate CleanItems(items: ItemsText) {
    match items
    case NoItems => true
    case Item(before, value, after, next) =>
      Clean(before) && CleanLayout(value) && Clean(after) && CleanItems(next)
  }

  predicate CleanFields(fields: FieldsText) {
    match fields
    case NoFields => true
    case Field(before, key, b, a, value, after, next) =>
      && Clean(before) && Clean(Spell(key)) && Clean(b) && Clean(a)
      && CleanLayout(value) && Clean(after) && CleanFields(next)
  }

  lemma CleanConcat(a: string, b: string)
    ensures Clean(a + b) <==> Clean(a) && Clean(b)
  {
    if Clean(a + b) {
      assert forall i :: 0 <= i < |a| ==> a[i] == (a + b)[i];
      assert forall i :: 0 <= i < |b| ==> b[i] == (a + b)[|a| + i];
    }
  }

  lemma CleanQuoted(chars: seq<Spelled>, rest: string)
    ensures Clean(Quoted(chars) + rest) <==> Clean(Spell(chars)) && Clean(rest)
  {
    assert Quoted(chars) + rest == "\"" + (Spell(chars) + ("\"" + rest));
    CleanConcat("\"", Spell(chars) + ("\"" + rest));
    CleanConcat(Spell(chars), "\"" + rest);
    CleanConcat("\"", rest);
  }

  lemma {:induction false} CleanRendered(l: Layout, rest: string)
    ensures Clean(Render(l, rest)) <==> CleanLayout(l) && Clean(rest)
    decreases l, 0
  {
    hide Clean, Spell;
    CleanMarks(rest);
    match l
    case NullText => CleanConcat("null", rest);
    case BoolText(b) => CleanConcat(if b then "true" else "false", rest);
    case NumberText(token) => CleanConcat(token, rest);
    case StringText(chars) => CleanQuoted(chars, rest);
    case ArrayText(gap, items) =>
      if items.NoItems? {
        CleanConcat(gap, "]" + rest);
        CleanMarks(gap + ("]" + rest));
      } else {
        CleanItemsRendered(items, rest);
        CleanMarks(RenderItems(items, rest));
      }
    case ObjectText(gap, fields) =>
      if fields.NoFields? {
        CleanConcat(gap, "}" + rest);
        CleanMarks(gap + ("}" + rest));
      } else {
        CleanFieldsRendered(fields, rest);
        CleanMarks(RenderFields(fields, rest));
      }
  }

  lemma CleanMarks(s: string)
    ensures Clean("null") && Clean("true") && Clean("false")
    ensures Clean("[" + s) == Clean("]" + s) == Clean(s)
    ensures Clean("{" + s) == Clean("}" + s) == Clean(s)
    ensures Clean("," + s) == Clean(":" + s) == Clean(s)
  {
    CleanConcat("[", s);
    CleanConcat("]", s);
    CleanConcat("{", s);
    CleanConcat("}", s);
    CleanConcat(",", s);
    CleanConcat(":", s);
  }

  lemma {:induction false} CleanItemsRendered(items: ItemsText, rest: string)
    requires items.Item?
    ensures Clean(RenderItems(items, rest)) <==> CleanItems(items) && Clean(rest)
    decreases items, 0
  {
    hide Clean, CleanLayout, Render;
    var close := ItemClose(items, rest);
    CleanConcat(items.before, Render(items.value, items.after + close));
    CleanRendered(items.value, items.after + close);
    CleanConcat(items.after, close);
    if items.next.NoItems? {
      CleanMarks(rest);
    } else {
      CleanMarks(RenderItems(items.next, rest));
      CleanItemsRendered(items.next, rest);
    }
  }

  lemma {:induction false} CleanFieldsRendered(fields: FieldsText, rest: string)
    requires fields.Field?
    ensures Clean(RenderFields(fields, rest)) <==> CleanFields(fields) && Clean(rest)
    decreases fields, 0
  {
    hide Clean, CleanLayout, Render, Spell, Quoted;
    var f, close := fields, FieldClose(fields, rest);
    CleanConcat(f.before, Quoted(f.key) + AfterKey(f, close));
    CleanQuoted(f.key, AfterKey(f, close));
    CleanConcat(f.beforeColon, ":" + (f.afterColon + Render(f.value, f.after + close)));
    CleanMarks(f.afterColon + Render(f.value, f.after + close));
    CleanConcat(f.afterColon, Render(f.value, f.after + close));
    CleanRendered(f.value, f.after + close);
    CleanConcat(f.after, close);
    if f.next.NoFields? {
      CleanMarks(rest);
    } else {
      CleanMarks(RenderFields(f.next, rest));
      CleanFieldsRendered(f.next, rest);
    }
  }

  lemma {:induction false} StandardCharsClean(chars: seq<Spelled>)
    requires StandardChars(chars)
    ensures Clean(Spell(chars))
  {
    if chars != [] {
      SpelledClean(chars[0]);
      StandardCharsClean(chars[1..]);
      hide Clean, SpellOne, StandardChar;
      CleanConcat(SpellOne(chars[0]), Spell(chars[1..]));
    }
  }

  lemma SpelledClean(ch: Spelled)
    requires StandardChar(ch)
    ensures Clean(SpellOne(ch))
  {
    if ch.Unit? {
      assert forall i :: 0 <= i < 4 ==> HexVal(ch.digits[i]).Some?;
    }
  }

  lemma NumberIsClean(token: string)
    requires StandardNumber(token)
    ensures Clean(token)
  {
    NumberIsToken(token);
  }

  lemma {:induction false} StandardIsClean(l: Layout)
    requires Standard(l)
    ensures CleanLayout(l)
    decreases l
  {
    match l
    case NullText =>
    case BoolText(b) =>
    case NumberText(token) => NumberIsClean(token);
    case StringText(chars) => StandardCharsClean(chars);
    case ArrayText(gap, items) => StandardItemsClean(items);
    case ObjectText(gap, fields) => StandardFieldsClean(fields);
  }

  lemma {:induction false} StandardItemsClean(items: ItemsText)
    requires StandardItems(items)
    ensures CleanItems(items)
    decreases items
  {
    hide Standard, CleanLayout;
    if items.Item? {
      StandardIsClean(items.value);
      StandardItemsClean(items.next);
    }
  }

  lemma {:induction false} StandardFieldsClean(fields: FieldsText)
    requires StandardFields(fields)
    ensures CleanFields(fields)
    decreases fields
  {
    hide Standard, CleanLayout, StandardChars, Spell;
    if fields.Field? {
      StandardCharsClean(fields.key);
      StandardIsClean(fields.value);
      StandardFieldsClean(fields.next);
    }
  }

  lemma StandardTextIsClean(text: string)
    requires StandardText(text)
    ensures Clean(text)
  {
    hide Standard, CleanLayout, Render;
    var before, l, after :| WhiteSpace(before) && Standard(l) && WhiteSpace(after) && text == before + Render(l, after);
    StandardIsClean(l);
    CleanRendered(l, after);
    CleanConcat(before, Render(l, after));
  }

  // ---- The printed configuration ----

  predicate CleanUser(u: User) {
    Clean(u.uuid) && Clean(u.name)
  }

  predicate CleanTls(t: Tls) {
    Clean(t.certFile) && Clean(t.keyFile) && Clean(t.certDir)
  }

  /** No printed string has a control character other than tab, newline and carriage return. */
  predicate CleanServer(c: Server) {
    && Clean(c.host) && Clean(c.logLevel) && Clean(c.remark) && CleanTls(c.tls)
    && forall u :: u in c.users ==> CleanUser(u)
  }

  lemma {:induction false} EscapedClean(s: string)
    ensures Clean(Spell(Spelling(s))) <==> Clean(s)
  {
    if s != "" {
      var more := Spelling(s)[1..];
      assert more == Spelling(s[1..]);
      EscapedClean(s[1..]);
      CleanConcat(SpellOne(SpellingOf(s[0])), Spell(more));
      CleanConcat([s[0]], s[1..]);
      assert [s[0]] + s[1..] == s;
    }
  }

  lemma TextStandard(s: string)
    ensures Clean(s) ==> StandardChars(Spelling(s)) && Standard(Text(s))
    ensures CleanLayout(Text(s)) <==> Clean(s)
  {
    EscapedClean(s);
    hide Spell;
  }

  /** A field on a line, in the grammar and as to control characters. */
  lemma LineStandard(before: string, key: string, value: Layout, next: FieldsText)
    requires WhiteSpace(before) && Clean(key)
    ensures Standard(value) && StandardFields(next) ==> StandardFields(Line(before, key, value, next))
    ensures CleanFields(Line(before, key, value, next)) ==> CleanLayout(value) && CleanFields(next)
  {
    TextStandard(key);
    hide Standard, CleanLayout, Spelling, Spell, StandardChars;
    assert WhiteSpace("") && WhiteSpace(" ");
    hide WhiteSpace, Clean;
  }

  lemma LastLineStandard(before: string, key: string, value: Layout, after: string)
    requires WhiteSpace(before) && Clean(key) && WhiteSpace(after)
    ensures Standard(value) ==> StandardFields(LastLine(before, key, value, after))
    ensures CleanFields(LastLine(before, key, value, after)) ==> CleanLayout(value)
  {
    TextStandard(key);
    hide Standard, CleanLayout, Spelling, Spell, StandardChars;
    assert WhiteSpace("") && WhiteSpace(" ");
    hide WhiteSpace, Clean;
  }

  lemma {:induction false} NaturalLeads(n: nat)
    ensures n > 0 ==> Natural(n)[0] != '0'
    ensures n < 10 ==> |Natural(n)| == 1
  {
    if n >= 10 {
      NaturalLeads(n / 10);
      NaturalReadBack(n / 10);
    }
  }

  lemma PrintStandard(n: int)
    ensures StandardNumber(Print(n))
  {
    var m: nat := if n < 0 then -n else n;
    NaturalReadBack(m);
    NaturalLeads(m);
    var sign := if n < 0 then "-" else "";
    assert NumberParts(sign, Natural(m), "", "");
    assert Print(n) == sign + Natural(m) + "" + "";
  }

  /** Keys and gaps. */
  lemma PlainTexts()
    ensures WhiteSpace("") && WhiteSpace(" ") && WhiteSpace("\n") && WhiteSpace("\n  ") && WhiteSpace("\n    ")
    ensures Clean("uuid") && Clean("name")
    ensures Clean("enabled") && Clean("port") && Clean("cert_file") && Clean("key_file") && Clean("cert_dir")
    ensures Clean("cert_days") && Clean("host") && Clean("log_level") && Clean("workers") && Clean("remark")
    ensures Clean("tls") && Clean("users")
  {
  }

  lemma UserStandard(u: User)
    ensures Standard(UserText(u)) <== CleanUser(u)
    ensures CleanLayout(UserText(u)) ==> CleanUser(u)
  {
    PlainTexts();
    TextStandard(u.uuid);
    TextStandard(u.name);
    hide Text, Line, LastLine, StandardFields, CleanFields, Clean, WhiteSpace;
    var last := LastLine(" ", "name", Text(u.name), "");
    LastLineStandard(" ", "name", Text(u.name), "");
    LineStandard("", "uuid", Text(u.uuid), last);
  }

  lemma {:induction false} UsersStandard(users: seq<User>)
    ensures (forall u :: u in users ==> CleanUser(u)) ==> StandardItems(UsersText(users))
    ensures CleanItems(UsersText(users)) ==> forall u :: u in users ==> CleanUser(u)
  {
    PlainTexts();
    hide UserText, CleanUser, Standard, CleanLayout, Clean, WhiteSpace;
    if users != [] {
      UserStandard(users[0]);
      UsersStandard(users[1..]);
      assert users == [users[0]] + users[1..];
    }
  }

  lemma TlsStandard(t: Tls)
    ensures CleanTls(t) ==> StandardFields(TlsText(t))
    ensures CleanFields(TlsText(t)) ==> CleanTls(t)
  {
    PlainTexts();
    PrintStandard(t.port);
    PrintStandard(t.certDays);
    TextStandard(t.certDir);
    TextStandard(t.keyFile);
    TextStandard(t.certFile);
    hide Text, Line, LastLine, StandardFields, CleanFields, Clean, WhiteSpace, StandardNumber, Print;
    LastLineStandard(INNER, "cert_days", NumberText(Print(t.certDays)), "\n  ");
    LineStandard(INNER, "cert_dir", Text(t.certDir), TlsFromDays(t));
    LineStandard(INNER, "key_file", Text(t.keyFile), TlsFromDir(t));
    LineStandard(INNER, "cert_file", Text(t.certFile), TlsFromKey(t));
    LineStandard(INNER, "port", NumberText(Print(t.port)), TlsFromCert(t));
    LineStandard(INNER, "enabled", BoolText(t.enabled), TlsFromPort(t));
  }

  lemma LaterStandard(c: Server)
    ensures CleanTls(c.tls) && (forall u :: u in c.users ==> CleanUser(u)) ==> StandardFields(FromTls(c))
    ensures CleanFields(FromTls(c)) ==> CleanTls(c.tls) && forall u :: u in c.users ==> CleanUser(u)
  {
    PlainTexts();
    UsersStandard(c.users);
    TlsStandard(c.tls);
    hide TlsText, UsersText, Line, LastLine, StandardFields, CleanFields, CleanTls, CleanUser, Clean, WhiteSpace;
    LastLineStandard(OUTER, "users", ArrayText("\n  ", UsersText(c.users)), "\n");
    LineStandard(OUTER, "tls", ObjectText("", TlsText(c.tls)), FromUsers(c));
  }

  lemma ServerStandard(c: Server)
    ensures CleanServer(c) ==> Standard(ServerText(c))
    ensures CleanLayout(ServerText(c)) ==> CleanServer(c)
  {
    PlainTexts();
    PrintStandard(c.port);
    PrintStandard(c.workers);
    TextStandard(c.remark);
    TextStandard(c.logLevel);
    TextStandard(c.host);
    LaterStandard(c);
    hide FromTls, Text, Line, StandardFields, CleanFields, CleanTls, CleanUser;
    hide Clean, WhiteSpace, StandardNumber, Print;
    LineStandard(OUTER, "remark", Text(c.remark), FromTls(c));
    LineStandard(OUTER, "workers", NumberText(Print(c.workers)), FromRemark(c));
    LineStandard(OUTER, "log_level", Text(c.logLevel), FromWorkers(c));
    LineStandard(OUTER, "host", Text(c.host), FromLogLevel(c));
    LineStandard(OUTER, "port", NumberText(Print(c.port)), FromHost(c));
  }

  /** What writeServerConfig prints is JSON by the standard exactly when no printed string has a
      control character other than tab, newline and carriage return: jsonEscape spells those
      three and prints the others as they are. */
  lemma PrintedIsStandardExactly(c: Server)
    ensures StandardText(Render(ServerText(c), "\n")) <==> CleanServer(c)
  {
    hide Standard, ServerText, Render, CleanServer, CleanLayout;
    ServerStandard(c);
    if CleanServer(c) {
      assert "" + Render(ServerText(c), "\n") == Render(ServerText(c), "\n");
      assert WhiteSpace("") && WhiteSpace("\n");
    }
    if StandardText(Render(ServerText(c), "\n")) {
      StandardTextIsClean(Render(ServerText(c), "\n"));
      CleanRendered(ServerText(c), "\n");
    }
  }

  /** A remark of one control character: the text is no standard JSON, and is read back all the
      same. */
  lemma ControlCharacterIsPrintedRaw()
    ensures var c := DEFAULT.(remark := [1 as char]);
            && !StandardText(Render(ServerText(c), "\n"))
            && LoadText(Render(ServerText(c), "\n"), DEFAULT) == Some(c)
  {
    var c := DEFAULT.(remark := [1 as char]);
    assert c.remark[0] == 1 as char && !Clean(c.remark);
    hide StandardText, ServerText, Render, LoadText;
    PrintedIsStandardExactly(c);
    ConfigRoundTrip(c);
  }
}
