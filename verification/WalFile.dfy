/** A WAL file: one printed mutation a line, and what reading it back gives. */
module WalFile {
  import opened Common
  import opened Uuid
  import opened Codec
  import opened RoundTrip

  /** The text `persist_batch` writes. */
  function FileText(batch: seq<Mutation>): (s: string) {
    if batch == [] then "" else PayloadJson(batch[0]) + "\n" + FileText(batch[1..])
  }

  /** Position of the first newline, or the length. */
  function LineEnd(s: string): (n: nat)
    ensures n <= |s| && (n < |s| ==> s[n] == '\n')
    ensures forall i :: 0 <= i < n ==> s[i] != '\n'
  {
    if s == "" || s[0] == '\n' then 0 else 1 + LineEnd(s[1..])
  }

  /** The text before the first newline. */
  function Cut(s: string): (r: string) {
    s[..LineEnd(s)]
  }

  function StripCr(s: string): (r: string) {
    if s != "" && s[|s| - 1] == '\r' then s[..|s| - 1] else s
  }

  /** Rust's `str::lines`: a newline ends a line, a carriage return before it
      is dropped, and an empty last line does not count. */
  function Lines(s: string): (ls: seq<string>)
    decreases |s|
  {
    if s == "" then []
    else
      var n := LineEnd(s);
      if n == |s| then [s] else [StripCr(s[..n])] + Lines(s[n + 1..])
  }

  /** Blank lines are skipped; the first line that does not parse fails. */
  function ParseLines(ls: seq<string>): (r: Result<seq<Mutation>, ParseError>) {
    if ls == [] then Ok([])
    else if Trim(ls[0]) == "" then ParseLines(ls[1..])
    else
      var m :- ParsePayload(ls[0]);
      var rest :- ParseLines(ls[1..]);
      Ok([m] + rest)
  }

  function ReadBack(text: string): (r: Result<seq<Mutation>, ParseError>) {
    ParseLines(Lines(text))
  }

  function NormalBatch(batch: seq<Mutation>): (r: seq<Mutation>)
    ensures |r| == |batch| && forall i :: 0 <= i < |batch| ==> r[i] == NormalMutation(batch[i])
  {
    seq(|batch|, i requires 0 <= i < |batch| => NormalMutation(batch[i]))
  }

  predicate ParamOnOneLine(p: Param) {
    p.Text? ==> '\n' !in p.s
  }

  /** No newline in the statement or in a text parameter. */
  predicate OnOneLine(m: Mutation) {
    && '\n' !in m.sql
    && forall i :: 0 <= i < |m.params| ==> ParamOnOneLine(m.params[i])
  }

  // ------------------------------------------------------ writing, reading

  lemma FileTextStep(text: string, batch: seq<Mutation>, i: nat)
    requires i < |batch|
    ensures text + FileText(batch[i..])
         == text + (PayloadJson(batch[i]) + "\n") + FileText(batch[i + 1..])
  {
    assert batch[i..][1..] == batch[i + 1..];
    Associate(text, PayloadJson(batch[i]) + "\n", FileText(batch[i + 1..]));
  }

  /** `persist_batch`'s write loop. */
  method WriteLines(batch: seq<Mutation>) returns (text: string)
    ensures text == FileText(batch)
  {
    text := "";
    for i := 0 to |batch|
      invariant text + FileText(batch[i..]) == FileText(batch)
    {
      FileTextStep(text, batch, i);
      text := text + (PayloadJson(batch[i]) + "\n");
    }
    assert text + "" == text;
  }

  /** A result with `batch` in front of it. */
  function After(batch: seq<Mutation>, r: Result<seq<Mutation>, ParseError>)
    : (all: Result<seq<Mutation>, ParseError>)
  {
    match r
    case Ok(rest) => Ok(batch + rest)
    case Err(e) => Err(e)
  }

  lemma AfterNothing(r: Result<seq<Mutation>, ParseError>)
    ensures After([], r) == r
  {
    if r.Ok? {
      assert [] + r.value == r.value;
    }
  }

  lemma ParseLinesStep(batch: seq<Mutation>, ls: seq<string>, i: nat)
    requires i < |ls|
    ensures var line := ls[i];
            After(batch, ParseLines(ls[i..])) ==
            if Trim(line) == "" then After(batch, ParseLines(ls[i + 1..]))
            else match ParsePayload(line)
                 case Ok(m) => After(batch + [m], ParseLines(ls[i + 1..]))
                 case Err(e) => Err(e)
  {
    assert ls[i..][1..] == ls[i + 1..];
    var p, r := ParsePayload(ls[i]), ParseLines(ls[i + 1..]);
    if p.Ok? && r.Ok? {
      Associate(batch, [p.value], r.value);
    }
  }

  /** `replay_wal`'s loop over the lines of one file. */
  method ReadLines(text: string) returns (r: Result<seq<Mutation>, ParseError>)
    ensures r == ReadBack(text)
  {
    var ls := Lines(text);
    var batch: seq<Mutation> := [];
    ghost var all := ReadBack(text);
    assert ls[0..] == ls;
    AfterNothing(all);
    for i := 0 to |ls|
      invariant all == After(batch, ParseLines(ls[i..]))
    {
      ParseLinesStep(batch, ls, i);
      if Trim(ls[i]) != "" {
        var m := ParsePayloadJson(ls[i]);
        if m.Err? {
          return Err(m.error);
        }
        batch := batch + [m.value];
      }
    }
    assert batch + [] == batch;
    return Ok(batch);
  }

  // ----------------------------------------------- where the newlines are

  lemma LineEndIs(s: string, n: nat)
    requires n <= |s| && (n < |s| ==> s[n] == '\n')
    requires forall i :: 0 <= i < n ==> s[i] != '\n'
    ensures LineEnd(s) == n
  {
  }

  lemma CutPastHead(a: string, b: string)
    requires '\n' !in a
    ensures Cut(a + b) == a + Cut(b) && LineEnd(a + b) == |a| + LineEnd(b)
  {
    LineEndIs(a + b, |a| + LineEnd(b));
  }

  lemma CutInHead(a: string, b: string)
    requires '\n' in a
    ensures Cut(a + b) == Cut(a) && LineEnd(a + b) < |a|
  {
    var i :| 0 <= i < |a| && a[i] == '\n';
    LineEndIs(a + b, LineEnd(a));
  }

  lemma NewlineAppend(a: string, b: string)
    ensures '\n' in a + b <==> '\n' in a || '\n' in b
  {
  }

  lemma {:induction false} NewlineEscape(s: string)
    ensures '\n' in Escape(s) <==> '\n' in s
    ensures Cut(Escape(s)) == Escape(Cut(s))
  {
    if s != "" && s[0] != '\n' {
      NewlineEscape(s[1..]);
      var head := if s[0] == '"' || s[0] == '\\' then ['\\', s[0]] else [s[0]];
      CutPastHead(head, Escape(s[1..]));
      CutPastHead([s[0]], s[1..]);
      assert [s[0]] + s[1..] == s;
      EscapeAppend([s[0]], Cut(s[1..]));
      assert [s[0]][1..] == "";
      assert Escape([s[0]]) == head + Escape("");
      NewlineAppend(head, Escape(s[1..]));
    }
  }

  lemma {:induction false} HexHasNoNewline(s: string)
    requires AllHex(s)
    ensures '\n' !in s
  {
  }

  lemma UuidOnOneLine(u: Bytes16)
    ensures '\n' !in ToText(u)
  {
    HexDigits(u);
    HexHasNoNewline(Hex(u));
  }

  lemma {:induction false} DigitsOnOneLine(s: string)
    requires AllDigits(s)
    ensures '\n' !in s
  {
  }

  lemma QuoteNewline(s: string)
    ensures '\n' in Quote(s) <==> '\n' in s
  {
    NewlineEscape(s);
  }

  lemma DisplayNewline(p: Param)
    ensures '\n' in Display(p) <==> !ParamOnOneLine(p)
  {
    match p
    case Text(s) =>
      TwoPassEscape(s);
      QuoteNewline(s);
    case Bytes(b) =>
      HexDigits(b);
      HexHasNoNewline(Hex(b));
    case Int(i) =>
      var n: int := i;
      DecimalDigits(if n < 0 then -n else n);
      DigitsOnOneLine(Decimal(if n < 0 then -n else n));
    case Null =>
  }

  predicate AllOnOneLine(ps: seq<Param>) {
    forall i :: 0 <= i < |ps| ==> ParamOnOneLine(ps[i])
  }

  lemma {:induction false} JoinNewline(ps: seq<Param>)
    ensures '\n' in Join(ps) <==> !AllOnOneLine(ps)
  {
    if ps != [] {
      DisplayNewline(ps[0]);
      JoinNewline(ps[1..]);
      if |ps| > 1 {
        NewlineAppend(Display(ps[0]) + ",", Join(ps[1..]));
        NewlineAppend(Display(ps[0]), ",");
      }
      assert AllOnOneLine(ps) <==> ParamOnOneLine(ps[0]) && AllOnOneLine(ps[1..]) by {
        assert ps == [ps[0]] + ps[1..];
      }
    }
  }

  /** The text in front of the statement's opening quote. */
  function SqlHead(m: Mutation): (s: string) {
    "{" + (Plain(ID_KEY) + ":" + (Plain(ToText(m.id)) + ("," + (Plain(SQL_KEY) + ":"))))
  }

  lemma PayloadSplit(m: Mutation)
    ensures PayloadJson(m) == SqlHead(m) + (Quote(m.sql) + ("," + ParamsPart(m)))
  {
  }

  lemma HeadsOnOneLine(m: Mutation)
    ensures '\n' !in SqlHead(m) && '\n' !in Plain(PARAMS_KEY)
  {
    UuidOnOneLine(m.id);
  }

  lemma PayloadNewline(m: Mutation)
    ensures '\n' in PayloadJson(m) <==> !OnOneLine(m)
  {
    PayloadSplit(m);
    HeadsOnOneLine(m);
    QuoteNewline(m.sql);
    JoinNewline(m.params);
    NewlineAppend(SqlHead(m), Quote(m.sql) + ("," + ParamsPart(m)));
    NewlineAppend(Quote(m.sql), "," + ParamsPart(m));
    NewlineAppend(",", ParamsPart(m));
    NewlineAppend(Plain(PARAMS_KEY) + ":", "[" + Join(m.params) + "]" + "}");
    NewlineAppend(Plain(PARAMS_KEY), ":");
    NewlineAppend("[" + Join(m.params), "]" + "}");
    NewlineAppend("[", Join(m.params));
  }

  // --------------------------------------------------- files that read back

  lemma LinesCons(p: string, t: string)
    requires '\n' !in p && p != "" && p[|p| - 1] != '\r'
    ensures Lines(p + "\n" + t) == [p] + Lines(t)
  {
    var s := p + "\n" + t;
    assert s == p + ("\n" + t);
    CutPastHead(p, "\n" + t);
    assert LineEnd("\n" + t) == 0;
    assert s[..|p|] == p && s[|p| + 1..] == t;
  }

  lemma {:induction false} TrimAll(w: string)
    requires Blank(w)
    ensures TrimStart(w) == ""
  {
    if w != "" {
      TrimAll(w[1..]);
    }
  }

  /** Blank lines do not count, wherever they come from. */
  lemma BlankLine(w: string, text: string)
    requires Blank(w) && '\n' !in w
    ensures ReadBack(w + ("\n" + text)) == ReadBack(text)
  {
    var s := w + ("\n" + text);
    LineEndIs(s, |w|);
    assert s[..|w|] == w && s[|w| + 1..] == text;
    TrimAll(StripCr(w));
  }

  /** A line may also end in a carriage return and a newline. */
  lemma CarriageReturn(p: string, text: string)
    requires '\n' !in p
    ensures Lines(p + ("\r\n" + text)) == [p] + Lines(text)
  {
    var s := p + ("\r\n" + text);
    LineEndIs(s, |p| + 1);
    assert s[..|p| + 1] == p + "\r" && s[|p| + 2..] == text;
  }

  lemma PayloadTrim(m: Mutation)
    ensures Trim(PayloadJson(m)) != ""
  {
    PayloadEnds(m);
    TrimBraces(PayloadJson(m));
  }

  lemma ReadBackCons(m: Mutation, t: string)
    requires OnOneLine(m)
    ensures ReadBack(PayloadJson(m) + "\n" + t) ==
            match ReadBack(t)
            case Ok(rest) => Ok([NormalMutation(m)] + rest)
            case Err(e) => Err(e)
  {
    var p := PayloadJson(m);
    PayloadNewline(m);
    PayloadEnds(m);
    LinesCons(p, t);
    PayloadTrim(m);
    ParseInvertsPrint(m);
    assert ([p] + Lines(t))[1..] == Lines(t);
  }

  lemma NormalBatchCons(batch: seq<Mutation>)
    requires batch != []
    ensures NormalBatch(batch) == [NormalMutation(batch[0])] + NormalBatch(batch[1..])
  {
  }

  lemma {:induction false} ReadsBack(batch: seq<Mutation>)
    requires forall i :: 0 <= i < |batch| ==> OnOneLine(batch[i])
    ensures ReadBack(FileText(batch)) == Ok(NormalBatch(batch))
  {
    if batch != [] {
      ReadsBack(batch[1..]);
      ReadBackCons(batch[0], FileText(batch[1..]));
      NormalBatchCons(batch);
    }
  }

  // ---------------------------------------------- files that do not read back

  /** A string literal without its closing quote. */
  function OpenString(v: string): (s: string) {
    "\"" + Escape(v)
  }

  /** A line that ends inside a string literal. */
  function Open(head: string, v: string): (s: string) {
    head + OpenString(v)
  }

  lemma {:induction false} UnquoteOpen(v: string)
    ensures Unquote(Escape(v)) == Err(Unclosed)
  {
    if v != "" {
      UnquoteOpen(v[1..]);
      var w := Escape(v[1..]);
      if v[0] == '"' || v[0] == '\\' {
        assert Escape(v) == ['\\', v[0]] + w && Escape(v)[2..] == w;
      } else {
        assert Escape(v) == [v[0]] + w && Escape(v)[1..] == w;
      }
    }
  }

  lemma ParseStringOpen(v: string)
    ensures ParseString(OpenString(v)) == Err(Unclosed)
  {
    UnquoteOpen(v);
    assert OpenString(v)[1..] == Escape(v);
  }

  function EscapeChar(c: char): (s: string) {
    if c == '"' || c == '\\' then ['\\', c] else [c]
  }

  lemma EscapeOne(c: char)
    ensures Escape([c]) == EscapeChar(c)
  {
    assert [c][1..] == "";
  }

  lemma EscapeSnoc(v: string)
    requires v != ""
    ensures Escape(v) == Escape(v[..|v| - 1]) + EscapeChar(v[|v| - 1])
  {
    var u, c := v[..|v| - 1], v[|v| - 1];
    assert v == u + [c];
    EscapeAppend(u, [c]);
    EscapeOne(c);
  }

  lemma DropLast(head: string, v: string)
    requires v != "" && v[|v| - 1] != '"' && v[|v| - 1] != '\\'
    ensures var s := Open(head, v);
            && s != "" && s[|s| - 1] == v[|v| - 1]
            && s[..|s| - 1] == Open(head, v[..|v| - 1])
  {
    EscapeSnoc(v);
  }

  /** The last character of an open string is the value's own, or a quote or
      backslash. */
  lemma LastOfOpen(head: string, v: string)
    requires v == "" || v[|v| - 1] == '"' || v[|v| - 1] == '\\'
    ensures var s := Open(head, v); s != "" && (s[|s| - 1] == '"' || s[|s| - 1] == '\\')
  {
    if v != "" {
      EscapeSnoc(v);
    }
  }

  /** Trimming the end of an open string only shortens its value. */
  lemma {:induction false} TrimEndOpen(head: string, v: string) returns (u: string)
    ensures TrimEnd(Open(head, v)) == Open(head, u)
    decreases |v|
  {
    if v == "" || v[|v| - 1] == '"' || v[|v| - 1] == '\\' {
      LastOfOpen(head, v);
      u := v;
    } else {
      DropLast(head, v);
      if IsWhitespace(v[|v| - 1]) {
        u := TrimEndOpen(head, v[..|v| - 1]);
      } else {
        u := v;
      }
    }
  }

  lemma StripCrOpen(head: string, v: string) returns (u: string)
    ensures StripCr(Open(head, v)) == Open(head, u)
  {
    if v == "" || v[|v| - 1] == '"' || v[|v| - 1] == '\\' {
      LastOfOpen(head, v);
      u := v;
    } else {
      DropLast(head, v);
      u := if v[|v| - 1] == '\r' then v[..|v| - 1] else v;
    }
  }

  /** Printed parameters with a comma behind each. */
  function CommaEach(ps: seq<Param>): (s: string) {
    if ps == [] then "" else Display(ps[0]) + ("," + CommaEach(ps[1..]))
  }

  lemma ItemsErr(p: Param, next: string)
    requires next != "" && !IsWhitespace(next[0]) && ParseItems(next).Err?
    ensures ParseItems(Display(p) + ("," + next)).Err?
  {
    ItemsMore(p, next);
  }

  lemma ItemsOpenStart(ps: seq<Param>, v: string)
    ensures var s := CommaEach(ps) + OpenString(v);
            s != "" && !IsWhitespace(s[0]) && s[0] != ']'
  {
    if ps != [] {
      DisplayStart(ps[0]);
    }
  }

  lemma ParseParamOpen(v: string)
    ensures ParseItems(OpenString(v)).Err?
  {
    var s := OpenString(v);
    ParseStringOpen(v);
    TrimStartNone(s);
    assert s[0] == '"' && !StartsWith(s, "null");
  }

  lemma {:induction false} ParseItemsOpen(ps: seq<Param>, v: string)
    ensures ParseItems(CommaEach(ps) + OpenString(v)).Err?
  {
    if ps == [] {
      assert "" + OpenString(v) == OpenString(v);
      ParseParamOpen(v);
    } else {
      var next := CommaEach(ps[1..]) + OpenString(v);
      ItemsOpenStart(ps[1..], v);
      ParseItemsOpen(ps[1..], v);
      ItemsErr(ps[0], next);
      Regroup1(Display(ps[0]), CommaEach(ps[1..]), OpenString(v));
    }
  }

  lemma Regroup1(d: string, c: string, o: string)
    ensures (d + ("," + c)) + o == d + ("," + (c + o))
  {
  }

  lemma ParseArrayOpen(ps: seq<Param>, v: string)
    ensures ParseArray("[" + (CommaEach(ps) + OpenString(v))).Err?
  {
    var u := CommaEach(ps) + OpenString(v);
    var s := "[" + u;
    TrimStartNone(s);
    assert s[1..] == u;
    ItemsOpenStart(ps, v);
    TrimStartNone(u);
    ParseItemsOpen(ps, v);
  }

  /** The line parser without the trimming. */
  function ParseTrimmed(t: string): (r: Result<Mutation, ParseError>) {
    if !StartsWith(t, "{") then Err(NoBrace) else Then(ParseFields(TrimStart(t[1..]), NO_FIELDS))
  }

  /** Cut off inside a string, a line that fails untrimmed fails on replay. */
  lemma OpenLineFails(head: string, v: string)
    requires head != "" && head[0] == '{'
    requires forall u :: ParseTrimmed(Open(head, u)).Err?
    ensures ParsePayload(StripCr(Open(head, v))).Err?
    ensures Trim(StripCr(Open(head, v))) != ""
  {
    var u := StripCrOpen(head, v);
    var w := TrimEndOpen(head, u);
    TrimStartNone(Open(head, u));
    assert Trim(Open(head, u)) == Open(head, w);
    assert ParsePayload(Open(head, u)) == ParseTrimmed(Open(head, w));
  }

  lemma Regroup2(p: string, u: string, k: string, r: string)
    ensures ("{" + (p + ":" + (u + ("," + (k + ":"))))) + r == "{" + (p + ":" + (u + ("," + (k + ":" + r))))
  {
  }

  lemma IdFieldThen(m: Mutation, rest: string)
    ensures var s := SqlHead(m) + rest;
            s[0] == '{' &&
            ParseTrimmed(s) == Then(ParseFields(Quote(SQL_KEY) + ":" + rest, NO_FIELDS.(id := Some(m.id))))
  {
    var u := ToText(m.id);
    var next := Quote(SQL_KEY) + ":" + rest;
    PlainKeys();
    PlainId(m.id);
    Regroup2(Quote(ID_KEY), Quote(u), Quote(SQL_KEY), rest);
    IdField(m.id, next, NO_FIELDS);
    BracedBody(Quote(ID_KEY) + ":" + (Quote(u) + ("," + next)));
  }

  lemma BracedBody(body: string)
    requires body != "" && body[0] == '"'
    ensures ParseTrimmed("{" + body) == Then(ParseFields(body, NO_FIELDS))
  {
    assert ("{" + body)[1..] == body;
    TrimStartNone(body);
  }

  lemma FieldErr(key: string, v: string, f: Fields)
    requires v != "" && !IsWhitespace(v[0]) && ParseValue(key, v, f).Err?
    ensures ParseFields(Quote(key) + ":" + v, f).Err?
  {
    ParseKey(key, v, f);
  }

  lemma SqlOpenFails(m: Mutation, v: string)
    ensures ParseTrimmed(Open(SqlHead(m), v)).Err?
  {
    var f := NO_FIELDS.(id := Some(m.id));
    var rest := OpenString(v);
    assert Open(SqlHead(m), v) == SqlHead(m) + rest;
    IdFieldThen(m, rest);
    ParseStringOpen(v);
    assert SQL_KEY[0] != ID_KEY[0];
    FieldErr(SQL_KEY, rest, f);
  }

  /** The text in front of the opening quote of a text parameter. */
  function ParamHead(m: Mutation, ps: seq<Param>): (s: string) {
    SqlHead(m) + (Quote(m.sql) + ("," + (Plain(PARAMS_KEY) + ":" + ("[" + CommaEach(ps)))))
  }

  lemma Regroup3(h: string, q: string, k: string, c: string, o: string)
    ensures (h + (q + ("," + (k + ":" + ("[" + c))))) + o == h + (q + ("," + (k + ":" + ("[" + (c + o)))))
  {
  }

  lemma ParamOpenFails(m: Mutation, ps: seq<Param>, v: string)
    ensures ParseTrimmed(Open(ParamHead(m, ps), v)).Err?
  {
    var f := NO_FIELDS.(id := Some(m.id));
    var next := Quote(PARAMS_KEY) + ":" + ("[" + (CommaEach(ps) + OpenString(v)));
    PlainKeys();
    Regroup3(SqlHead(m), Quote(m.sql), Quote(PARAMS_KEY), CommaEach(ps), OpenString(v));
    IdFieldThen(m, Quote(m.sql) + ("," + next));
    SqlField(m.sql, next, f);
    ParamsOpenFails(ps, v, f.(sql := Some(m.sql)));
  }

  lemma ParamsOpenFails(ps: seq<Param>, v: string, g: Fields)
    ensures ParseFields(Quote(PARAMS_KEY) + ":" + ("[" + (CommaEach(ps) + OpenString(v))), g).Err?
  {
    ParseArrayOpen(ps, v);
    assert PARAMS_KEY[0] != ID_KEY[0] && PARAMS_KEY[0] != SQL_KEY[0];
    FieldErr(PARAMS_KEY, "[" + (CommaEach(ps) + OpenString(v)), g);
  }

  /** Cutting inside a quoted string leaves it open. */
  lemma CutQuote(v: string, t: string)
    requires '\n' in v
    ensures Cut(Quote(v) + t) == OpenString(Cut(v))
  {
    var e := Escape(v);
    NewlineEscape(v);
    assert Quote(v) + t == "\"" + (e + ("\"" + t));
    CutPastHead("\"", e + ("\"" + t));
    CutInHead(e, "\"" + t);
  }

  lemma JoinTail(ps: seq<Param>) returns (rest: string)
    requires ps != []
    ensures Join(ps) == Display(ps[0]) + rest
    ensures |ps| > 1 ==> rest == "," + Join(ps[1..])
  {
    if |ps| == 1 {
      rest := "";
      NothingBehind(Display(ps[0]));
    } else {
      rest := "," + Join(ps[1..]);
      Associate(Display(ps[0]), ",", Join(ps[1..]));
    }
  }

  lemma NothingBehind(s: string)
    ensures s + "" == s
  {
  }

  lemma FirstOnOneLine(ps: seq<Param>)
    requires !AllOnOneLine(ps) && ParamOnOneLine(ps[0])
    ensures |ps| > 1 && !AllOnOneLine(ps[1..])
  {
    var i :| 0 <= i < |ps| && !ParamOnOneLine(ps[i]);
    assert !ParamOnOneLine(ps[1..][i - 1]);
  }

  /** Cutting the joined parameters at their first newline. */
  lemma {:induction false} CutJoin(ps: seq<Param>, t: string) returns (qs: seq<Param>, v: string)
    requires ps != [] && !AllOnOneLine(ps)
    ensures Cut(Join(ps) + t) == CommaEach(qs) + OpenString(v)
  {
    var d := Display(ps[0]);
    DisplayNewline(ps[0]);
    var tail := JoinTail(ps);
    if ParamOnOneLine(ps[0]) {
      FirstOnOneLine(ps);
      var us, u := CutJoin(ps[1..], t);
      var rest := Join(ps[1..]) + t;
      Regroup1(d, Join(ps[1..]), t);
      CutPastHead(d, "," + rest);
      CutPastHead(",", rest);
      Regroup1(d, CommaEach(us), OpenString(u));
      assert ([ps[0]] + us)[1..] == us;
      qs, v := [ps[0]] + us, u;
    } else {
      qs, v := [], Cut(ps[0].s);
      TwoPassEscape(ps[0].s);
      CutQuote(ps[0].s, tail + t);
      Associate(d, tail, t);
      assert "" + OpenString(v) == OpenString(v);
    }
  }

  /** The first line of a mutation with a newline never parses. */
  lemma CutPayloadFails(m: Mutation)
    requires !OnOneLine(m)
    ensures ParsePayload(StripCr(Cut(PayloadJson(m)))).Err?
    ensures Trim(StripCr(Cut(PayloadJson(m)))) != ""
  {
    PayloadSplit(m);
    HeadsOnOneLine(m);
    if '\n' in m.sql {
      var v := Cut(m.sql);
      var tail := "," + ParamsPart(m);
      CutPastHead(SqlHead(m), Quote(m.sql) + tail);
      CutQuote(m.sql, tail);
      forall u
        ensures ParseTrimmed(Open(SqlHead(m), u)).Err?
      {
        SqlOpenFails(m, u);
      }
      OpenLineFails(SqlHead(m), v);
    } else {
      var qs, v := CutJoin(m.params, "]" + "}");
      CutParams(m, qs, v);
      forall u
        ensures ParseTrimmed(Open(ParamHead(m, qs), u)).Err?
      {
        ParamOpenFails(m, qs, u);
      }
      OpenLineFails(ParamHead(m, qs), v);
    }
  }

  lemma Regroup4(h: string, q: string, k: string, j: string)
    ensures h + (q + ("," + (k + ":" + ("[" + j + "]" + "}"))))
         == h + q + ("," + k + ":" + "[") + (j + ("]" + "}"))
  {
  }

  lemma Regroup5(h: string, q: string, k: string, c: string)
    ensures h + q + ("," + k + ":" + "[") + c == h + (q + ("," + (k + ":" + ("[" + c))))
  {
  }

  lemma CutParams(m: Mutation, qs: seq<Param>, v: string)
    requires '\n' !in m.sql
    requires Cut(Join(m.params) + ("]" + "}")) == CommaEach(qs) + OpenString(v)
    ensures Cut(PayloadJson(m)) == Open(ParamHead(m, qs), v)
  {
    var k := "," + Plain(PARAMS_KEY) + ":" + "[";
    var h := SqlHead(m) + Quote(m.sql) + k;
    PayloadSplit(m);
    HeadsOnOneLine(m);
    QuoteNewline(m.sql);
    Regroup4(SqlHead(m), Quote(m.sql), Plain(PARAMS_KEY), Join(m.params));
    NewlineAppend(SqlHead(m) + Quote(m.sql), k);
    NewlineAppend(SqlHead(m), Quote(m.sql));
    CutPastHead(h, Join(m.params) + ("]" + "}"));
    Regroup5(SqlHead(m), Quote(m.sql), Plain(PARAMS_KEY), CommaEach(qs));
    Associate(h, CommaEach(qs), OpenString(v));
  }

  lemma FirstLine(m: Mutation, t: string)
    requires !OnOneLine(m)
    ensures var ls := Lines(PayloadJson(m) + "\n" + t);
            ls != [] && ls[0] == StripCr(Cut(PayloadJson(m)))
  {
    var p := PayloadJson(m);
    PayloadNewline(m);
    Associate(p, "\n", t);
    CutInHead(p, "\n" + t);
  }

  lemma {:induction false} FailsToReadBack(batch: seq<Mutation>)
    requires exists i :: 0 <= i < |batch| && !OnOneLine(batch[i])
    ensures ReadBack(FileText(batch)).Err?
  {
    var m, t := batch[0], FileText(batch[1..]);
    if OnOneLine(m) {
      var i :| 0 <= i < |batch| && !OnOneLine(batch[i]);
      assert !OnOneLine(batch[1..][i - 1]);
      FailsToReadBack(batch[1..]);
      ReadBackCons(m, t);
    } else {
      FirstLine(m, t);
      CutPayloadFails(m);
    }
  }

  /** A persisted file is read back as its batch, in order and of the same
      length, up to the codec's normalisation, exactly when no statement and
      no text parameter holds a newline; otherwise replay of the file stops
      with an error. */
  lemma FileRoundTrip(batch: seq<Mutation>)
    ensures if forall i :: 0 <= i < |batch| ==> OnOneLine(batch[i])
            then ReadBack(FileText(batch)) == Ok(NormalBatch(batch))
            else ReadBack(FileText(batch)).Err?
  {
    if forall i :: 0 <= i < |batch| ==> OnOneLine(batch[i]) {
      ReadsBack(batch);
    } else {
      FailsToReadBack(batch);
    }
  }
}
