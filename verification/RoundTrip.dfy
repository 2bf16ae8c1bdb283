/** What parsing a printed line gives back, for every mutation. */
module RoundTrip {
  import opened Common
  import opened Uuid
  import opened Codec

  /** The one change the line format makes: string values that look like
      printed bytes come back as bytes, and empty bytes as the text of their
      bare prefix. */
  function Normal(p: Param): (q: Param) {
    match p
    case Text(s) => StringParam(s)
    case Bytes(b) => if b == [] then Text("\\x") else p
    case _ => p
  }

  function NormalAll(ps: seq<Param>): (qs: seq<Param>)
    ensures |qs| == |ps| && forall i :: 0 <= i < |ps| ==> qs[i] == Normal(ps[i])
  {
    seq(|ps|, i requires 0 <= i < |ps| => Normal(ps[i]))
  }

  function NormalMutation(m: Mutation): (n: Mutation) {
    m.(params := NormalAll(m.params))
  }

  /** The parameters the line format keeps. */
  predicate Exact(p: Param) {
    && (p.Text? ==> !LooksLikeBytes(p.s))
    && (p.Bytes? ==> p.b != [])
  }

  // -------------------------------------------------------------- strings

  /** The two passes of `Display` escape exactly like the single pass used
      for the statement. */
  lemma {:induction false} TwoPassEscape(s: string)
    ensures Replace(Replace(s, '\\', "\\\\"), '"', "\\\"") == Escape(s)
  {
    if s != "" {
      TwoPassEscape(s[1..]);
      var t := Replace(s[1..], '\\', "\\\\");
      if s[0] == '\\' {
        ReplaceAppend("\\\\", t, '"', "\\\"");
        assert Replace("\\\\", '"', "\\\"") == "\\\\" by {
          assert "\\\\"[1..] == "\\" && "\\"[1..] == "";
          assert Replace("\\", '"', "\\\"") == "\\" + Replace("", '"', "\\\"");
        }
      } else {
        assert ([s[0]] + t)[1..] == t;
      }
    }
  }

  lemma {:induction false} ReplaceAppend(a: string, b: string, c: char, with: string)
    ensures Replace(a + b, c, with) == Replace(a, c, with) + Replace(b, c, with)
  {
    if a == "" {
      assert a + b == b;
    } else {
      assert (a + b)[1..] == a[1..] + b;
      ReplaceAppend(a[1..], b, c, with);
    }
  }

  /** An escaped string is read back to its closing quote, whatever follows. */
  lemma {:induction false} UnquoteEscape(v: string, t: string)
    ensures Unquote(Escape(v) + "\"" + t) == Ok(Parsed(v, t))
  {
    var u := Escape(v) + "\"" + t;
    if v == "" {
      assert u == "\"" + t && u[1..] == t;
    } else {
      UnquoteEscape(v[1..], t);
      var w := Escape(v[1..]) + "\"" + t;
      if v[0] == '"' || v[0] == '\\' {
        assert u == ['\\', v[0]] + w && u[2..] == w;
      } else {
        assert u == [v[0]] + w && u[1..] == w;
      }
      assert v == [v[0]] + v[1..];
    }
  }

  lemma ParseQuote(v: string, t: string)
    ensures ParseString(Quote(v) + t) == Ok(Parsed(v, t))
  {
    UnquoteEscape(v, t);
    assert (Quote(v) + t)[1..] == Escape(v) + "\"" + t;
  }

  lemma {:induction false} EscapeAppend(a: string, b: string)
    ensures Escape(a + b) == Escape(a) + Escape(b)
  {
    if a == "" {
      assert a + b == b;
    } else {
      assert (a + b)[1..] == a[1..] + b;
      EscapeAppend(a[1..], b);
    }
  }

  lemma {:induction false} EscapePlain(v: string)
    requires '"' !in v && '\\' !in v
    ensures Escape(v) == v
  {
    if v != "" {
      EscapePlain(v[1..]);
    }
  }

  // -------------------------------------------------------------- numbers

  lemma {:induction false} DecimalDigits(n: nat)
    ensures AllDigits(Decimal(n)) && DigitsValue(Decimal(n)) == n
  {
    if n < 10 {
      assert Decimal(n)[..0] == "";
      assert DigitsValue("") == 0;
    } else {
      DecimalDigits(n / 10);
      var d := Decimal(n);
      assert d[..|d| - 1] == Decimal(n / 10);
    }
  }

  lemma {:induction false} SpanOfDigits(d: string, t: string)
    requires forall i :: 0 <= i < |d| ==> IsDigit(d[i]) || d[i] == '-'
    requires t == "" || !(IsDigit(t[0]) || t[0] == '-')
    ensures NumberSpan(d + t) == |d|
  {
    if d == "" {
      assert d + t == t;
    } else {
      assert (d + t)[1..] == d[1..] + t;
      SpanOfDigits(d[1..], t);
    }
  }

  lemma ParseNegative(n: nat)
    requires 0 < n <= 0x8000_0000_0000_0000
    ensures var m: int := n; ParseI64("-" + Decimal(n)) == Ok(-m)
  {
    DecimalDigits(n);
    assert ("-" + Decimal(n))[1..] == Decimal(n);
  }

  lemma ParsePositive(n: nat)
    requires n < 0x8000_0000_0000_0000
    ensures ParseI64(Decimal(n)) == Ok(n)
  {
    DecimalDigits(n);
    assert IsDigit(Decimal(n)[0]);
  }

  lemma DisplayedSpan(i: i64)
    ensures forall j :: 0 <= j < |Display(Int(i))| ==> IsDigit(Display(Int(i))[j]) || Display(Int(i))[j] == '-'
  {
    var n: int := i;
    DecimalDigits(if n < 0 then -n else n);
  }

  lemma ParseDisplayedInt(i: i64, t: string)
    requires t != "" && !IsDigit(t[0]) && t[0] != '-'
    ensures ParseNumber(Display(Int(i)) + t) == Ok(Parsed(Int(i), t))
  {
    var n: int := i;
    var d := Display(Int(i));
    if n < 0 {
      ParseNegative(-n);
    } else {
      ParsePositive(n);
    }
    DisplayedSpan(i);
    SpanOfDigits(d, t);
    assert (d + t)[..|d|] == d && (d + t)[|d|..] == t;
  }

  // ----------------------------------------------------------- parameters

  /** What may stand behind a printed parameter. */
  predicate Delimited(t: string) {
    t != "" && (t[0] == ',' || t[0] == ']' || IsWhitespace(t[0]))
  }

  lemma TrimStartNone(s: string)
    requires s != "" && !IsWhitespace(s[0])
    ensures TrimStart(s) == s
  {
  }

  lemma EscapedPrefix()
    ensures Escape("\\x") == "\\\\x"
  {
    assert "\\x"[1..] == "x" && "x"[1..] == "";
    assert Escape("x") == "x" + Escape("");
    assert Escape("\\x") == "\\\\" + Escape("x");
  }

  lemma EscapedHex(b: seq<byte>)
    ensures Display(Bytes(b)) == Quote("\\x" + Hex(b))
  {
    var h := Hex(b);
    assert Escape("\\x" + h) == "\\\\x" + h by {
      HexDigits(b);
      EscapePlain(h);
      EscapedPrefix();
      EscapeAppend("\\x", h);
    }
    assert "\"" + ("\\\\x" + h) + "\"" == "\"\\\\x" + h + "\"";
  }

  /** Printed bytes look like bytes when there are any. */
  lemma HexLooksLikeBytes(h: string)
    requires AllHex(h) && |h| % 2 == 0
    ensures ("\\x" + h)[2..] == h
    ensures LooksLikeBytes("\\x" + h) <==> h != ""
  {
    var v := "\\x" + h;
    assert v[2..] == h;
    assert StartsWith(v, "\\x") by { assert v[..2] == "\\x"; }
    assert |v| == |h| + 2;
    assert |v| % 2 == 0;
  }

  lemma StringParamOfHex(b: seq<byte>)
    ensures StringParam("\\x" + Hex(b)) == Normal(Bytes(b))
  {
    UnhexHex(b);
    HexLooksLikeBytes(Hex(b));
    if b == [] {
      assert "\\x" + Hex(b) == "\\x";
    }
  }

  lemma ParseQuotedParam(v: string, t: string)
    ensures ParseParam(Quote(v) + t) == Ok(Parsed(StringParam(v), t))
  {
    var s := Quote(v) + t;
    ParseQuote(v, t);
    TrimStartNone(s);
    assert s[0] == '"';
    assert !StartsWith(s, "null");
  }

  /** A printed parameter is read back, up to normalisation. */
  lemma ParseDisplayed(p: Param, t: string)
    requires Delimited(t)
    ensures ParseParam(Display(p) + t) == Ok(Parsed(Normal(p), t))
  {
    var s := Display(p) + t;
    match p
    case Text(v) =>
      TwoPassEscape(v);
      ParseQuotedParam(v, t);
    case Bytes(b) =>
      EscapedHex(b);
      StringParamOfHex(b);
      ParseQuotedParam("\\x" + Hex(b), t);
    case Null =>
      TrimStartNone(s);
      assert s[4..] == t;
    case Int(i) =>
      ParseDisplayedInt(i, t);
      DisplayedIntStart(i);
      assert s[0] == Display(p)[0];
      TrimStartNone(s);
  }

  lemma DisplayedIntStart(i: i64)
    ensures Display(Int(i)) != ""
    ensures IsDigit(Display(Int(i))[0]) || Display(Int(i))[0] == '-'
  {
    var n: int := i;
    DecimalDigits(if n < 0 then -n else n);
  }

  /** Printed parameters never start with white space or a closing bracket. */
  lemma DisplayStart(p: Param)
    ensures Display(p) != "" && !IsWhitespace(Display(p)[0]) && Display(p)[0] != ']'
  {
    if p.Int? {
      DisplayedIntStart(p.i);
    }
  }

  lemma ItemsLast(p: Param, t: string)
    ensures ParseItems(Display(p) + ("]" + t)) == Ok(Parsed([Normal(p)], t))
  {
    ParseDisplayed(p, "]" + t);
    TrimStartNone("]" + t);
    assert ("]" + t)[1..] == t;
  }

  lemma ItemsMore(p: Param, next: string)
    requires next != "" && !IsWhitespace(next[0])
    ensures ParseItems(Display(p) + ("," + next)) == Resume([Normal(p)], ParseItems(next))
  {
    var t := "," + next;
    ParseDisplayed(p, t);
    TrimStartNone(t);
    assert t[1..] == next;
    TrimStartNone(next);
  }

  lemma JoinCons(ps: seq<Param>, t: string)
    requires ps != []
    ensures Join(ps) + "]" + t ==
            if |ps| == 1 then Display(ps[0]) + ("]" + t)
            else Display(ps[0]) + ("," + (Join(ps[1..]) + "]" + t))
  {
    Shift(Display(ps[0]), "]", t);
    if |ps| > 1 {
      Shift4(Display(ps[0]), Join(ps[1..]), t);
    }
  }

  lemma Shift(a: string, b: string, c: string)
    ensures a + b + c == a + (b + c)
  {
  }

  lemma Shift4(a: string, j: string, t: string)
    ensures (a + "," + j) + "]" + t == a + ("," + (j + "]" + t))
  {
  }

  lemma NormalAllCons(ps: seq<Param>)
    requires ps != []
    ensures NormalAll(ps) == [Normal(ps[0])] + NormalAll(ps[1..])
    ensures |ps| == 1 ==> NormalAll(ps) == [Normal(ps[0])]
  {
  }

  lemma {:induction false} ParseJoined(ps: seq<Param>, t: string)
    requires ps != []
    ensures ParseItems(Join(ps) + "]" + t) == Ok(Parsed(NormalAll(ps), t))
  {
    JoinCons(ps, t);
    NormalAllCons(ps);
    if |ps| == 1 {
      ItemsLast(ps[0], t);
    } else {
      JoinStart(ps[1..]);
      ItemsMore(ps[0], Join(ps[1..]) + "]" + t);
      ParseJoined(ps[1..], t);
    }
  }

  lemma JoinStart(ps: seq<Param>)
    requires ps != []
    ensures Join(ps) != "" && !IsWhitespace(Join(ps)[0]) && Join(ps)[0] != ']'
  {
    DisplayStart(ps[0]);
  }

  lemma ParsePrintedArray(ps: seq<Param>, t: string)
    ensures ParseArray("[" + Join(ps) + "]" + t) == Ok(Parsed(NormalAll(ps), t))
  {
    var s := "[" + Join(ps) + "]" + t;
    TrimStartNone(s);
    var u := Join(ps) + "]" + t;
    assert s[1..] == u;
    if ps == [] {
      assert u == "]" + t && u[1..] == t;
    } else {
      JoinStart(ps);
      ParseJoined(ps, t);
    }
    TrimStartNone(u);
  }

  // --------------------------------------------------------------- fields

  lemma PlainUuid(u: Bytes16)
    ensures '"' !in ToText(u) && '\\' !in ToText(u)
  {
    HexDigits(u);
    var h := Hex(u);
    forall c | c in ToText(u)
      ensures c in h || c == '-'
    {
    }
  }

  predicate NoEscapes(k: string) {
    forall i :: 0 <= i < |k| ==> k[i] != '"' && k[i] != '\\'
  }

  lemma PlainIsQuote(k: string)
    requires NoEscapes(k)
    ensures Plain(k) == Quote(k)
  {
    EscapePlain(k);
  }

  lemma KeysNeedNoEscapes()
    ensures NoEscapes(ID_KEY) && NoEscapes(SQL_KEY) && NoEscapes(PARAMS_KEY)
  {
  }

  lemma PlainKeys()
    ensures Plain(ID_KEY) == Quote(ID_KEY)
    ensures Plain(SQL_KEY) == Quote(SQL_KEY)
    ensures Plain(PARAMS_KEY) == Quote(PARAMS_KEY)
  {
    KeysNeedNoEscapes();
    PlainIsQuote(ID_KEY);
    PlainIsQuote(SQL_KEY);
    PlainIsQuote(PARAMS_KEY);
  }

  lemma ParseKey(key: string, v: string, f: Fields)
    requires v != "" && !IsWhitespace(v[0])
    ensures ParseField(Quote(key) + ":" + v, f) == ParseValue(key, v, f)
  {
    var t := ":" + v;
    assert Quote(key) + ":" + v == Quote(key) + t;
    ParseQuote(key, t);
    TrimStartNone(t);
    TrimStartNone(v);
    assert t[1..] == v;
  }

  /** A field followed by a comma and another key is consumed completely. */
  lemma ParseThenComma(s: string, f: Fields, g: Fields, next: string)
    requires s != "" && ParseField(s, f) == Ok(Parsed(g, "," + next))
    requires next != "" && next[0] == '"'
    ensures ParseFields(s, f) == ParseFields(next, g)
  {
    var t := "," + next;
    TrimStartNone(t);
    assert t[1..] == next;
    TrimStartNone(next);
  }

  lemma ParseIdValue(u: Bytes16, t: string, f: Fields)
    ensures ParseValue(ID_KEY, Quote(ToText(u)) + t, f) == Ok(Parsed(f.(id := Some(u)), t))
  {
    ParseQuote(ToText(u), t);
    ParseInvertsToText(u);
  }

  lemma ParseSqlValue(v: string, t: string, f: Fields)
    ensures ParseValue(SQL_KEY, Quote(v) + t, f) == Ok(Parsed(f.(sql := Some(v)), t))
  {
    ParseQuote(v, t);
    assert SQL_KEY[0] != ID_KEY[0];
  }

  lemma ParseParamsValue(ps: seq<Param>, t: string, f: Fields)
    ensures ParseValue(PARAMS_KEY, "[" + Join(ps) + "]" + t, f)
         == Ok(Parsed(f.(params := Some(NormalAll(ps))), t))
  {
    ParsePrintedArray(ps, t);
    assert PARAMS_KEY[0] != ID_KEY[0] && PARAMS_KEY[0] != SQL_KEY[0];
  }

  lemma FieldThenComma(key: string, v: string, f: Fields, g: Fields, next: string)
    requires v != "" && !IsWhitespace(v[0])
    requires ParseValue(key, v, f) == Ok(Parsed(g, "," + next))
    requires next != "" && next[0] == '"'
    ensures ParseFields(Quote(key) + ":" + v, f) == ParseFields(next, g)
  {
    ParseKey(key, v, f);
    ParseThenComma(Quote(key) + ":" + v, f, g, next);
  }

  /** An identifier field with another field behind it. */
  lemma IdField(u: Bytes16, next: string, f: Fields)
    requires next != "" && next[0] == '"'
    ensures ParseFields(Quote(ID_KEY) + ":" + (Quote(ToText(u)) + ("," + next)), f)
         == ParseFields(next, f.(id := Some(u)))
  {
    ParseIdValue(u, "," + next, f);
    FieldThenComma(ID_KEY, Quote(ToText(u)) + ("," + next), f, f.(id := Some(u)), next);
  }

  /** A statement field with another field behind it. */
  lemma SqlField(v: string, next: string, f: Fields)
    requires next != "" && next[0] == '"'
    ensures ParseFields(Quote(SQL_KEY) + ":" + (Quote(v) + ("," + next)), f)
         == ParseFields(next, f.(sql := Some(v)))
  {
    ParseSqlValue(v, "," + next, f);
    FieldThenComma(SQL_KEY, Quote(v) + ("," + next), f, f.(sql := Some(v)), next);
  }

  lemma PlainId(u: Bytes16)
    ensures Plain(ToText(u)) == Quote(ToText(u))
  {
    PlainUuid(u);
    PlainIsQuote(ToText(u));
  }

  lemma ParseIdField(m: Mutation)
    ensures ParseFields(PayloadJson(m)[1..], NO_FIELDS) ==
            ParseFields(SqlPart(m), NO_FIELDS.(id := Some(m.id)))
  {
    PlainKeys();
    PlainId(m.id);
    assert PayloadJson(m)[1..] == Plain(ID_KEY) + ":" + (Plain(ToText(m.id)) + ("," + SqlPart(m)));
    IdField(m.id, SqlPart(m), NO_FIELDS);
  }

  lemma ParseSqlField(m: Mutation, f: Fields)
    ensures ParseFields(SqlPart(m), f) == ParseFields(ParamsPart(m), f.(sql := Some(m.sql)))
  {
    PlainKeys();
    SqlField(m.sql, ParamsPart(m), f);
  }

  lemma LastField(key: string, v: string, f: Fields, g: Fields)
    requires v != "" && !IsWhitespace(v[0])
    requires ParseValue(key, v, f) == Ok(Parsed(g, "}"))
    ensures ParseFields(Quote(key) + ":" + v, f) == Ok(g)
  {
    ParseKey(key, v, f);
    TrimStartNone("}");
  }

  lemma ParseParamsField(m: Mutation, f: Fields)
    ensures ParseFields(ParamsPart(m), f) == Ok(f.(params := Some(NormalAll(m.params))))
  {
    PlainKeys();
    ParseParamsValue(m.params, "}", f);
    LastField(PARAMS_KEY, "[" + Join(m.params) + "]" + "}", f, f.(params := Some(NormalAll(m.params))));
  }

  lemma TrimBraces(s: string)
    requires |s| >= 2 && s[0] == '{' && s[|s| - 1] == '}'
    ensures Trim(s) == s
  {
    TrimStartNone(s);
  }

  /** A line with no white space around it is parsed from behind its opening
      brace. */
  lemma ParseBraced(s: string)
    requires |s| >= 2 && s[0] == '{' && s[1] == '"' && s[|s| - 1] == '}'
    ensures ParsePayload(s) == Then(ParseFields(s[1..], NO_FIELDS))
  {
    TrimBraces(s);
    TrimStartNone(s[1..]);
  }

  function Then(r: Result<Fields, ParseError>): (m: Result<Mutation, ParseError>) {
    match r
    case Ok(f) => Finish(f)
    case Err(e) => Err(e)
  }

  /** Every printed line parses, and gives the mutation up to
      normalisation: any identifier, any statement and text (quotes,
      backslashes, newlines), any 64-bit integer. */
  lemma ParseInvertsPrint(m: Mutation)
    ensures ParsePayload(PayloadJson(m)) == Ok(NormalMutation(m))
  {
    PayloadEnds(m);
    ParseBraced(PayloadJson(m));
    ParseIdField(m);
    ParseSqlField(m, NO_FIELDS.(id := Some(m.id)));
    ParseParamsField(m, NO_FIELDS.(id := Some(m.id), sql := Some(m.sql)));
  }

  lemma PayloadEnds(m: Mutation)
    ensures var s := PayloadJson(m); |s| >= 2 && s[0] == '{' && s[1] == '"' && s[|s| - 1] == '}'
  {
  }

  lemma NormalFixpoint(p: Param)
    ensures Normal(p) == p <==> Exact(p)
  {
  }

  /** The line gives back the very same mutation exactly when no parameter is
      empty bytes or text that looks like printed bytes. */
  lemma RoundTripExact(m: Mutation)
    ensures ParsePayload(PayloadJson(m)) == Ok(m) <==>
            forall i :: 0 <= i < |m.params| ==> Exact(m.params[i])
  {
    ParseInvertsPrint(m);
    var n := NormalAll(m.params);
    forall i | 0 <= i < |m.params|
      ensures n[i] == m.params[i] <==> Exact(m.params[i])
    {
      NormalFixpoint(m.params[i]);
    }
    if forall i :: 0 <= i < |m.params| ==> Exact(m.params[i]) {
      assert n == m.params;
    }
  }

  /** Equal lines come from mutations that parse alike: the identifier and
      the statement are never confused. */
  lemma PrintInjective(m: Mutation, n: Mutation)
    requires PayloadJson(m) == PayloadJson(n)
    ensures m.id == n.id && m.sql == n.sql && NormalAll(m.params) == NormalAll(n.params)
  {
    ParseInvertsPrint(m);
    ParseInvertsPrint(n);
  }

  /** Two different parameters, one text: what the format cannot tell apart. */
  lemma AmbiguousText()
    ensures Display(Text("\\xab")) == Display(Bytes([0xab]))
    ensures Normal(Bytes([])) == Text("\\x")
  {
    EscapedHex([0xab]);
    assert Hex([0xab]) == HexByte(0xab) + Hex([0xab][1..]);
    assert "\\x" + Hex([0xab]) == "\\xab";
    TwoPassEscape("\\xab");
  }

  // ------------------------------------------------------ the text in full

  lemma KeysInFull()
    ensures Plain(ID_KEY) == "\"mutation_id\"" && Plain(SQL_KEY) == "\"sql\"" && Plain(PARAMS_KEY) == "\"params\""
  {
  }

  /** A line in full. */
  lemma LineInFull(m: Mutation)
    ensures PayloadJson(m) ==
            "{" + ("\"mutation_id\"" + ":" + ("\"" + ToText(m.id) + "\"" + (","
            + ("\"sql\"" + ":" + ("\"" + Escape(m.sql) + "\"" + (","
            + ("\"params\"" + ":" + ("[" + Join(m.params) + "]" + "}"))))))))
  {
    KeysInFull();
  }

  lemma ShortLine(id: string)
    ensures "{" + ("\"mutation_id\"" + ":" + ("\"" + id + "\"" + (","
            + ("\"sql\"" + ":" + ("\"" + "q" + "\"" + (","
            + ("\"params\"" + ":" + ("[" + "" + "]" + "}"))))))))
         == "{\"mutation_id\":\"" + id + "\",\"sql\":\"q\",\"params\":[]}"
  {
    var tail := "," + ("\"sql\"" + ":" + ("\"" + "q" + "\"" + ("," + ("\"params\"" + ":" + ("[" + "" + "]" + "}")))));
    assert tail == ",\"sql\":\"q\",\"params\":[]}";
    Around(id, tail);
    assert "\"" + tail == "\",\"sql\":\"q\",\"params\":[]}";
  }

  lemma Around(id: string, tail: string)
    ensures "{" + ("\"mutation_id\"" + ":" + ("\"" + id + "\"" + tail)) == "{\"mutation_id\":\"" + id + ("\"" + tail)
  {
    assert "{" + ("\"mutation_id\"" + ":" + "\"") == "{\"mutation_id\":\"";
    Shifted("{", "\"mutation_id\"" + ":", "\"", id, "\"", tail);
  }

  lemma Shifted(a: string, b: string, c: string, x: string, d: string, r: string)
    ensures a + (b + (c + x + d + r)) == a + (b + c) + x + (d + r)
  {
  }

  /** What the parser makes of a line that names the keys as the printer does. */
  lemma LiteralLine(u: Bytes16)
    ensures ParsePayload("{\"mutation_id\":\"" + ToText(u) + "\",\"sql\":\"q\",\"params\":[]}")
         == Ok(Mutation(u, "q", []))
  {
    var m := Mutation(u, "q", []);
    OneLetter();
    LineInFull(m);
    ShortLine(ToText(u));
    ParseInvertsPrint(m);
  }

  lemma OneLetter()
    ensures Escape("q") == "q"
  {
    assert "q"[1..] == "";
  }

  /** The parameters in full, by example. */
  lemma IntsInFull()
    ensures Display(Null) == "null" && Display(Int(0)) == "0" && Display(Int(305)) == "305"
    ensures Display(Int(-71)) == "-71"
  {
    assert Decimal(30) == Decimal(3) + "0" && Decimal(305) == Decimal(30) + "5" && Decimal(71) == Decimal(7) + "1";
  }

  lemma BytesInFull()
    ensures Display(Bytes([0x0A, 0xF3])) == "\"\\\\x0af3\""
  {
    assert [0x0A, 0xF3][1..] == [0xF3] && [0xF3][1..] == [];
    assert Hex([0xF3]) == "f3" + Hex([]) && Hex([0x0A, 0xF3]) == "0a" + Hex([0xF3]);
  }

  lemma TextInFull()
    ensures Display(Text("a\"\\")) == "\"a\\\"\\\\\""
  {
    TwoPassEscape("a\"\\");
    EscapeInFull();
  }

  lemma EscapeInFull()
    ensures Escape("a\"\\") == "a\\\"\\\\"
  {
    assert "a\"\\"[1..] == "\"\\" && "\"\\"[1..] == "\\" && "\\"[1..] == "";
    assert Escape("\\") == "\\\\" + Escape("");
    assert Escape("\"\\") == "\\\"" + Escape("\\");
  }

  // ----------------------------------------------- what else the parser takes

  predicate Blank(w: string) {
    forall i :: 0 <= i < |w| ==> IsWhitespace(w[i])
  }

  /** Text that does not begin with white space. */
  predicate Begun(s: string) {
    s != "" && !IsWhitespace(s[0])
  }

  lemma {:induction false} TrimBlank(w: string, s: string)
    requires Blank(w) && Begun(s)
    ensures TrimStart(w + s) == s
  {
    if w == "" {
      assert w + s == s;
      TrimStartNone(s);
    } else {
      TrimBlank(w[1..], s);
      assert (w + s)[1..] == w[1..] + s;
    }
  }

  lemma {:induction false} TrimBlankEnd(s: string, w: string)
    requires Blank(w) && s != "" && !IsWhitespace(s[|s| - 1])
    ensures TrimEnd(s + w) == s
    decreases |w|
  {
    if w == "" {
      assert s + w == s;
    } else {
      var v := w[..|w| - 1];
      TrimBlankEnd(s, v);
      assert (s + w)[..|s + w| - 1] == s + v;
    }
  }

  /** A field with white space around its colon. */
  function Loose(key: string, w: string, v: string): (s: string) {
    Quote(key) + (w + (":" + (w + v)))
  }

  lemma LooseField(key: string, w: string, v: string, f: Fields)
    requires Blank(w) && Begun(v)
    ensures ParseField(Loose(key, w, v), f) == ParseValue(key, v, f)
  {
    var t := ":" + (w + v);
    ParseQuote(key, w + t);
    TrimBlank(w, t);
    assert t[1..] == w + v;
    TrimBlank(w, v);
  }

  lemma LastOf(a: string, b: string)
    requires b != ""
    ensures a + b != "" && (a + b)[|a + b| - 1] == b[|b| - 1]
  {
  }

  lemma LooseShape(key: string, w: string, v: string)
    requires v != ""
    ensures var s := Loose(key, w, v); Begun(s) && s[0] == '"' && s[|s| - 1] == v[|v| - 1]
  {
    LastOf(w, v);
    LastOf(":", w + v);
    LastOf(w, ":" + (w + v));
    LastOf(Quote(key), w + (":" + (w + v)));
  }

  /** White space around the comma behind it. */
  lemma LooseComma(w: string, next: string)
    requires Blank(w) && Begun(next)
    ensures AfterField(w + ("," + (w + next))) == next
  {
    var t := "," + (w + next);
    TrimBlank(w, t);
    assert t[1..] == w + next;
    TrimBlank(w, next);
  }

  lemma LooseStep(key: string, w: string, v: string, f: Fields, g: Fields, next: string)
    requires Blank(w) && Begun(v) && Begun(next) && next[0] == '"'
    requires ParseValue(key, v, f) == Ok(Parsed(g, w + ("," + (w + next))))
    ensures ParseFields(Loose(key, w, v), f) == ParseFields(next, g)
  {
    LooseField(key, w, v, f);
    LooseComma(w, next);
  }

  /** White space in front of the closing brace. */
  lemma LooseEnd(key: string, w: string, v: string, f: Fields, g: Fields)
    requires Blank(w) && Begun(v) && ParseValue(key, v, f) == Ok(Parsed(g, w + "}"))
    ensures ParseFields(Loose(key, w, v), f) == Ok(g)
  {
    LooseField(key, w, v, f);
    TrimBlank(w, "}");
  }

  /** A key of no meaning is skipped with its value. */
  lemma SkippedValue(key: string, x: string, t: string, f: Fields)
    requires key !in [ID_KEY, SQL_KEY, PARAMS_KEY]
    ensures ParseValue(key, Quote(x) + t, f) == Ok(Parsed(f, t))
  {
    ParseQuote(x, t);
    TrimStartNone(Quote(x) + t);
  }

  lemma TrimAround(t: string, w: string)
    requires Blank(w) && Begun(t) && !IsWhitespace(t[|t| - 1])
    ensures Trim(w + t + w) == t
  {
    assert w + t + w == w + (t + w);
    TrimBlank(w, t + w);
    TrimBlankEnd(t, w);
  }

  lemma ParseTrimmed(line: string, u: string, body: string, r: Result<Fields, ParseError>)
    requires Trim(line) == "{" + u && TrimStart(u) == body && ParseFields(body, NO_FIELDS) == r
    ensures ParsePayload(line) == Then(r)
  {
    assert ("{" + u)[1..] == u;
  }

  lemma BracedParts(w: string, body: string, u: string, t: string)
    requires Blank(w) && Begun(body) && body[|body| - 1] == '}' && u == w + body && t == "{" + u
    ensures Trim(w + t + w) == t && TrimStart(u) == body
  {
    LastOf(w, body);
    LastOf("{", u);
    TrimAround(t, w);
    TrimBlank(w, body);
  }

  lemma BracedLoosely(w: string, body: string)
    requires Blank(w) && Begun(body) && body[|body| - 1] == '}'
    ensures ParsePayload(w + ("{" + (w + body)) + w) == Then(ParseFields(body, NO_FIELDS))
  {
    var u := w + body;
    var t := "{" + u;
    BracedParts(w, body, u, t);
    ParseTrimmed(w + t + w, u, body, ParseFields(body, NO_FIELDS));
  }

  function LooseId(u: Bytes16, w: string): (s: string) {
    Loose("mutation_id", w, Quote(ToText(u)) + (w + "}"))
  }

  function LooseSql(q: string, w: string, next: string): (s: string) {
    Loose("sql", w, Quote(q) + (w + ("," + (w + next))))
  }

  function LooseOther(key: string, x: string, w: string, next: string): (s: string) {
    Loose(key, w, Quote(x) + (w + ("," + (w + next))))
  }

  lemma LooseIdEnds(u: Bytes16, w: string, f: Fields)
    requires Blank(w)
    ensures ParseFields(LooseId(u, w), f) == Ok(f.(id := Some(u)))
    ensures var s := LooseId(u, w); Begun(s) && s[0] == '"' && s[|s| - 1] == '}'
  {
    var v := Quote(ToText(u)) + (w + "}");
    ParseIdValue(u, w + "}", f);
    LooseEnd("mutation_id", w, v, f, f.(id := Some(u)));
    LastOf(w, "}");
    LastOf(Quote(ToText(u)), w + "}");
    LooseShape("mutation_id", w, v);
  }

  lemma NextShape(key: string, x: string, w: string, next: string)
    requires next != ""
    ensures var s := LooseOther(key, x, w, next); Begun(s) && s[0] == '"' && s[|s| - 1] == next[|next| - 1]
  {
    var v := Quote(x) + (w + ("," + (w + next)));
    LastOf(w, next);
    LastOf(",", w + next);
    LastOf(w, "," + (w + next));
    LastOf(Quote(x), w + ("," + (w + next)));
    LooseShape(key, w, v);
  }

  lemma LooseSqlStep(q: string, w: string, next: string, f: Fields)
    requires Blank(w) && Begun(next) && next[0] == '"'
    ensures ParseFields(LooseSql(q, w, next), f) == ParseFields(next, f.(sql := Some(q)))
  {
    ParseSqlValue(q, w + ("," + (w + next)), f);
    LooseStep("sql", w, Quote(q) + (w + ("," + (w + next))), f, f.(sql := Some(q)), next);
  }

  lemma LooseOtherStep(key: string, x: string, w: string, next: string, f: Fields)
    requires Blank(w) && key !in [ID_KEY, SQL_KEY, PARAMS_KEY] && Begun(next) && next[0] == '"'
    ensures ParseFields(LooseOther(key, x, w, next), f) == ParseFields(next, f)
  {
    SkippedValue(key, x, w + ("," + (w + next)), f);
    LooseStep(key, w, Quote(x) + (w + ("," + (w + next))), f, f, next);
  }

  lemma LooseBody(u: Bytes16, q: string, key: string, x: string, w: string) returns (body: string)
    requires Blank(w) && key !in [ID_KEY, SQL_KEY, PARAMS_KEY]
    ensures body == LooseOther(key, x, w, LooseSql(q, w, LooseId(u, w)))
    ensures Begun(body) && body[|body| - 1] == '}'
    ensures ParseFields(body, NO_FIELDS) == Ok(Fields(Some(u), Some(q), None))
  {
    var g := NO_FIELDS.(sql := Some(q));
    var id := LooseId(u, w);
    LooseIdEnds(u, w, g);
    var sql := LooseSql(q, w, id);
    NextShape("sql", q, w, id);
    LooseSqlStep(q, w, id, NO_FIELDS);
    body := LooseOther(key, x, w, sql);
    NextShape(key, x, w, sql);
    LooseOtherStep(key, x, w, sql, NO_FIELDS);
  }

  /** A line in another layout: white space between all tokens, the fields in
      another order, one of unknown meaning among them, no parameters. */
  lemma LooseLine(u: Bytes16, q: string, key: string, x: string, w: string)
    requires Blank(w) && key !in [ID_KEY, SQL_KEY, PARAMS_KEY]
    ensures ParsePayload(w + ("{" + (w + LooseOther(key, x, w, LooseSql(q, w, LooseId(u, w))))) + w)
         == Ok(Mutation(u, q, []))
  {
    var body := LooseBody(u, q, key, x, w);
    BracedLoosely(w, body);
  }

  /** A line without a statement, and one without an identifier. */
  lemma IncompleteLine(u: Bytes16, q: string, w: string)
    requires Blank(w)
    ensures ParsePayload(w + ("{" + (w + LooseId(u, w))) + w) == Err(MissingSql)
    ensures ParsePayload(w + ("{" + (w + Loose("sql", w, Quote(q) + (w + "}")))) + w) == Err(MissingId)
  {
    var f: Fields := NO_FIELDS;
    LooseIdEnds(u, w, f);
    BracedLoosely(w, LooseId(u, w));
    var v := Quote(q) + (w + "}");
    ParseSqlValue(q, w + "}", f);
    LooseEnd("sql", w, v, f, f.(sql := Some(q)));
    LastOf(w, "}");
    LastOf(Quote(q), w + "}");
    LooseShape("sql", w, v);
    BracedLoosely(w, Loose("sql", w, v));
  }

  /** The parameters with white space in front of each and behind it. */
  function LooseJoin(ps: seq<Param>, w: string): (s: string)
    requires ps != []
  {
    if |ps| == 1 then w + (Display(ps[0]) + w) else w + (Display(ps[0]) + (w + ("," + LooseJoin(ps[1..], w))))
  }

  lemma LooseParam(p: Param, w: string, rest: string)
    requires Blank(w) && Delimited(rest)
    ensures ParseParam(w + (Display(p) + rest)) == Ok(Parsed(Normal(p), rest))
  {
    DisplayStart(p);
    ParseDisplayed(p, rest);
    TrimBlank(w, Display(p) + rest);
    TrimStartNone(Display(p) + rest);
  }

  lemma {:induction false} TrimTwice(s: string)
    ensures TrimStart(TrimStart(s)) == TrimStart(s)
  {
    if s != "" && IsWhitespace(s[0]) {
      TrimTwice(s[1..]);
    }
  }

  lemma ParamTrimmed(s: string)
    ensures ParseParam(TrimStart(s)) == ParseParam(s)
  {
    TrimTwice(s);
  }

  lemma ItemsTrimmed(s: string)
    ensures ParseItems(TrimStart(s)) == ParseItems(s)
  {
    ParamTrimmed(s);
  }

  lemma LooseLast(p: Param, w: string, t: string)
    requires Blank(w)
    ensures ParseItems(w + (Display(p) + (w + ("]" + t)))) == Ok(Parsed([Normal(p)], t))
  {
    BlankDelimits(w, "]" + t);
    LooseParam(p, w, w + ("]" + t));
    TrimBlank(w, "]" + t);
    assert ("]" + t)[1..] == t;
  }

  lemma LooseMore(p: Param, w: string, next: string)
    requires Blank(w)
    ensures ParseItems(w + (Display(p) + (w + ("," + next)))) == Resume([Normal(p)], ParseItems(next))
  {
    BlankDelimits(w, "," + next);
    LooseParam(p, w, w + ("," + next));
    TrimBlank(w, "," + next);
    assert ("," + next)[1..] == next;
    ItemsTrimmed(next);
  }

  lemma BlankDelimits(w: string, t: string)
    requires Blank(w) && Delimited(t)
    ensures Delimited(w + t)
  {
    assert w == "" ==> w + t == t;
  }

  lemma Shift3(w: string, d: string, v: string, t: string)
    ensures w + (d + v) + t == w + (d + (v + t))
  {
  }

  /** White space inside the brackets. */
  lemma {:induction false} LooseItems(ps: seq<Param>, w: string, t: string)
    requires Blank(w) && ps != []
    ensures ParseItems(LooseJoin(ps, w) + ("]" + t)) == Ok(Parsed(NormalAll(ps), t))
    decreases |ps|
  {
    NormalAllCons(ps);
    var d := Display(ps[0]);
    if |ps| == 1 {
      LooseLast(ps[0], w, t);
      Shift3(w, d, w, "]" + t);
    } else {
      var more := LooseJoin(ps[1..], w);
      LooseItems(ps[1..], w, t);
      LooseMore(ps[0], w, more + ("]" + t));
      Shift3(w, d, w + ("," + more), "]" + t);
      Associate(w, "," + more, "]" + t);
      Associate(",", more, "]" + t);
    }
  }

  /** And around the brackets, also of an empty array. */
  lemma LooseArray(ps: seq<Param>, w: string, t: string)
    requires Blank(w)
    ensures ParseArray(w + ("[" + (w + ("]" + t)))) == Ok(Parsed([], t))
    ensures ps != [] ==> ParseArray(w + ("[" + (LooseJoin(ps, w) + ("]" + t)))) == Ok(Parsed(NormalAll(ps), t))
  {
    LooseEmpty(w, t);
    if ps != [] {
      LooseFull(ps, w, LooseJoin(ps, w) + ("]" + t), t);
    }
  }

  lemma LooseEmpty(w: string, t: string)
    requires Blank(w)
    ensures ParseArray(w + ("[" + (w + ("]" + t)))) == Ok(Parsed([], t))
  {
    var s, u := "[" + (w + ("]" + t)), "]" + t;
    TrimBlank(w, s);
    assert s[1..] == w + u;
    TrimBlank(w, u);
    assert u[1..] == t;
  }

  lemma LooseFull(ps: seq<Param>, w: string, items: string, t: string)
    requires Blank(w) && ps != [] && items == LooseJoin(ps, w) + ("]" + t)
    ensures ParseArray(w + ("[" + items)) == Ok(Parsed(NormalAll(ps), t))
  {
    var s := "[" + items;
    TrimBlank(w, s);
    assert s[1..] == items;
    LooseItems(ps, w, t);
    ItemsTrimmed(items);
    LooseJoinStart(ps, w, t);
  }

  lemma LooseJoinStart(ps: seq<Param>, w: string, t: string)
    requires Blank(w) && ps != []
    ensures !StartsWith(TrimStart(LooseJoin(ps, w) + ("]" + t)), "]")
  {
    var d := Display(ps[0]);
    DisplayStart(ps[0]);
    var rest := if |ps| == 1 then w else w + ("," + LooseJoin(ps[1..], w));
    Shift3(w, d, rest, "]" + t);
    TrimBlank(w, d + (rest + ("]" + t)));
    assert (d + (rest + ("]" + t)))[0] == d[0];
  }

  /** Any other value of a key of no meaning is skipped too: null, an array of
      printed parameters, a token up to the next comma or brace. */
  lemma SkippedOthers(key: string, ps: seq<Param>, token: string, t: string, f: Fields)
    requires key !in [ID_KEY, SQL_KEY, PARAMS_KEY]
    ensures ParseValue(key, "null" + t, f) == Ok(Parsed(f, t))
    ensures ParseValue(key, "[" + Join(ps) + "]" + t, f) == Ok(Parsed(f, t))
    ensures Begun(token) && token[0] !in "\"[n" && ',' !in token && '}' !in token && t != "" && t[0] in ",}" ==>
              ParseValue(key, token + t, f) == Ok(Parsed(f, t))
  {
    TrimStartNone("null" + t);
    assert ("null" + t)[4..] == t;
    SkippedArray(key, ps, t, f);
    if Begun(token) && token[0] !in "\"[n" && ',' !in token && '}' !in token && t != "" && t[0] in ",}" {
      TrimStartNone(token + t);
      TokenEnds(token, t);
      assert (token + t)[|token|..] == t;
    }
  }

  lemma SkippedArray(key: string, ps: seq<Param>, t: string, f: Fields)
    requires key !in [ID_KEY, SQL_KEY, PARAMS_KEY]
    ensures ParseValue(key, "[" + Join(ps) + "]" + t, f) == Ok(Parsed(f, t))
  {
    TrimStartNone("[" + Join(ps) + "]" + t);
    ParsePrintedArray(ps, t);
  }

  lemma {:induction false} TokenEnds(token: string, t: string)
    requires ',' !in token && '}' !in token && t != "" && t[0] in ",}"
    ensures TokenSpan(token + t) == |token|
  {
    if token == "" {
      assert token + t == t;
    } else {
      assert (token + t)[1..] == token[1..] + t;
      TokenEnds(token[1..], t);
    }
  }

  /** A backslash before anything but a quote or a backslash is an error, and so
      is a string that does not end. */
  lemma {:induction false} BadStrings(v: string, c: char, t: string)
    requires c != '"' && c != '\\'
    ensures Unquote(Escape(v) + (['\\', c] + t)) == Err(BadEscape(c))
    ensures Unquote(Escape(v)) == Err(Unclosed) && Unquote(Escape(v) + "\\") == Err(Unclosed)
  {
    if v == "" {
      assert "" + (['\\', c] + t) == ['\\', c] + t && "" + "\\" == "\\";
    } else {
      var head, rest := Escape([v[0]]), Escape(v[1..]);
      EscapeCons(v);
      BadStrings(v[1..], c, t);
      UnquoteHead(v[0], rest + (['\\', c] + t));
      UnquoteHead(v[0], rest);
      UnquoteHead(v[0], rest + "\\");
      Associate(head, rest, ['\\', c] + t);
      Associate(head, rest, "\\");
    }
  }

  lemma EscapeCons(v: string)
    requires v != ""
    ensures Escape(v) == Escape([v[0]]) + Escape(v[1..])
  {
    assert [v[0]] + v[1..] == v;
    EscapeAppend([v[0]], v[1..]);
  }

  lemma UnquoteHead(c: char, t: string)
    ensures Unquote(Escape([c]) + t) == Resume([c], Unquote(t))
  {
    assert [c][1..] == "";
    var e := Escape([c]);
    assert e == (if c == '"' || c == '\\' then ['\\', c] else [c]) + Escape("");
    if c == '"' || c == '\\' {
      assert e == ['\\', c] && (e + t)[2..] == t;
    } else {
      assert e == [c] && (e + t)[1..] == t;
    }
  }

  /** Numbers that 64 bits do not hold are errors. */
  lemma BeyondI64(n: nat)
    ensures ParseI64(Decimal(n)).Ok? <==> n < 0x8000_0000_0000_0000
    ensures ParseI64("-" + Decimal(n)).Ok? <==> n <= 0x8000_0000_0000_0000
  {
    DecimalDigits(n);
    assert IsDigit(Decimal(n)[0]);
    assert ("-" + Decimal(n))[1..] == Decimal(n);
  }

  /** White space, listed. */
  lemma WhitespaceInFull(c: char)
    ensures IsWhitespace(c) <==>
            c as int in {9, 10, 11, 12, 13, 32, 133, 160, 5760, 8192, 8193, 8194, 8195, 8196, 8197, 8198, 8199, 8200,
                         8201, 8202, 8232, 8233, 8239, 8287, 12288}
  {
  }
}
