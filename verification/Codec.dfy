/** The WAL line format: what a mutation is printed to, and the hand-written
    parser that reads it back. Text is a sequence of code points. */
module Codec {
  import opened Common
  import opened Uuid

  /** Rust's `i64`. */
  type i64 = x: int | -0x8000_0000_0000_0000 <= x < 0x8000_0000_0000_0000

  datatype Param = Text(s: string) | Int(i: i64) | Bytes(b: seq<byte>) | Null

  datatype Mutation = Mutation(id: Bytes16, sql: string, params: seq<Param>)

  datatype ParseError =
    | ExpectedString | Unclosed | BadEscape(c: char)
    | NoBrace | NoColon | NoBracket | NoComma
    | BadNumber | BadId | MissingId | MissingSql

  /** A parsed value and the text behind it. */
  datatype Parsed<+T> = Parsed(value: T, rest: string)

  type Parse<+T> = Result<Parsed<T>, ParseError>

  // ---------------------------------------------------------------- text

  /** Rust's `char::is_whitespace` (the Unicode White_Space property). */
  predicate IsWhitespace(c: char) {
    var n := c as int;
    9 <= n <= 13 || n == 0x20 || n == 0x85 || n == 0xA0 || n == 0x1680
    || 0x2000 <= n <= 0x200A || n == 0x2028 || n == 0x2029 || n == 0x202F
    || n == 0x205F || n == 0x3000
  }

  function TrimStart(s: string): (r: string)
    ensures |r| <= |s|
  {
    if s != "" && IsWhitespace(s[0]) then TrimStart(s[1..]) else s
  }

  function TrimEnd(s: string): (r: string)
    ensures |r| <= |s|
  {
    if s != "" && IsWhitespace(s[|s| - 1]) then TrimEnd(s[..|s| - 1]) else s
  }

  function Trim(s: string): (r: string) {
    TrimEnd(TrimStart(s))
  }

  predicate StartsWith(s: string, p: string) {
    p <= s
  }

  // ------------------------------------------------------------- printing

  /** Backslash in front of quotes and backslashes, everything else as is. */
  function Escape(s: string): (r: string) {
    if s == "" then ""
    else (if s[0] == '"' || s[0] == '\\' then ['\\', s[0]] else [s[0]]) + Escape(s[1..])
  }

  function Quote(s: string): (r: string) {
    "\"" + Escape(s) + "\""
  }

  /** Rust's `str::replace` with a one-character pattern. */
  function Replace(s: string, c: char, with: string): (r: string) {
    if s == "" then ""
    else (if s[0] == c then with else [s[0]]) + Replace(s[1..], c, with)
  }

  function Decimal(n: nat): (s: string)
    ensures s != ""
  {
    if n < 10 then [HexDigit(n)] else Decimal(n / 10) + [HexDigit(n % 10)]
  }

  /** `Display` of a parameter; text is escaped in two passes. */
  function Display(p: Param): (s: string) {
    match p
    case Text(s) => "\"" + Replace(Replace(s, '\\', "\\\\"), '"', "\\\"") + "\""
    case Int(i) => var n: int := i; if n < 0 then "-" + Decimal(-n) else Decimal(n)
    case Bytes(b) => "\"\\\\x" + Hex(b) + "\""
    case Null => "null"
  }

  /** `params.join(",")`. */
  function Join(ps: seq<Param>): (s: string) {
    if ps == [] then ""
    else if |ps| == 1 then Display(ps[0])
    else Display(ps[0]) + "," + Join(ps[1..])
  }

  const ID_KEY := "mutation_id"
  const SQL_KEY := "sql"
  const PARAMS_KEY := "params"

  /** Quotes written by the format string itself, without escaping. */
  function Plain(s: string): (r: string) {
    "\"" + s + "\""
  }

  /** `payload_json`: one line of the WAL, and the audit payload. */
  function PayloadJson(m: Mutation): (s: string) {
    "{" + (Plain(ID_KEY) + ":" + (Plain(ToText(m.id)) + ("," + SqlPart(m))))
  }

  function SqlPart(m: Mutation): (s: string) {
    Plain(SQL_KEY) + ":" + (Quote(m.sql) + ("," + ParamsPart(m)))
  }

  function ParamsPart(m: Mutation): (s: string) {
    Plain(PARAMS_KEY) + ":" + ("[" + Join(m.params) + "]" + "}")
  }

  // -------------------------------------------------------------- parsing
  // The original returns how many characters a value took and its callers
  // slice there; here the remaining text itself is returned.

  /** The value and the text left after the rest of a string literal, read
      from behind its open quote. */
  function Unquote(t: string): (r: Parse<string>)
    ensures r.Ok? ==> |r.value.rest| < |t|
  {
    if t == "" then Err(Unclosed)
    else if t[0] == '"' then Ok(Parsed("", t[1..]))
    else if t[0] == '\\' then
      if |t| == 1 then Err(Unclosed)
      else if t[1] != '"' && t[1] != '\\' then Err(BadEscape(t[1]))
      else Resume([t[1]], Unquote(t[2..]))
    else Resume([t[0]], Unquote(t[1..]))
  }

  /** A parse result with `out` collected in front of it. */
  function Resume<T>(out: seq<T>, r: Parse<seq<T>>): (q: Parse<seq<T>>)
    ensures q.Ok? <==> r.Ok?
    ensures q.Ok? ==> q.value.rest == r.value.rest
  {
    match r
    case Ok(p) => Ok(Parsed(out + p.value, p.rest))
    case Err(e) => Err(e)
  }

  function ParseString(s: string): (r: Parse<string>)
    ensures r.Ok? ==> |r.value.rest| < |s|
  {
    if s == "" || s[0] != '"' then Err(ExpectedString) else Unquote(s[1..])
  }

  predicate IsDigit(c: char) {
    '0' <= c <= '9'
  }

  /** Length of the longest prefix of digits and minus signs. */
  function NumberSpan(s: string): (n: nat)
    ensures n <= |s|
  {
    if s != "" && (IsDigit(s[0]) || s[0] == '-') then 1 + NumberSpan(s[1..]) else 0
  }

  predicate AllDigits(s: string) {
    forall i :: 0 <= i < |s| ==> IsDigit(s[i])
  }

  function DigitsValue(s: string): (n: nat)
    requires AllDigits(s)
  {
    if s == "" then 0
    else DigitsValue(s[..|s| - 1]) * 10 + (s[|s| - 1] as int - '0' as int)
  }

  /** Rust's `parse::<i64>()` on digits and minus signs: an optional leading
      minus, at least one digit, in range. */
  function ParseI64(s: string): (r: Result<i64, ParseError>)
    ensures r.Ok? ==> s != ""
  {
    var neg := s != "" && s[0] == '-';
    var digits := if neg then s[1..] else s;
    if digits == "" || !AllDigits(digits) then Err(BadNumber)
    else
      var n: int := DigitsValue(digits);
      var v: int := if neg then -n else n;
      if -0x8000_0000_0000_0000 <= v < 0x8000_0000_0000_0000 then Ok(v) else Err(BadNumber)
  }

  /** Text of the form backslash, `x`, then at least one pair of hex digits. */
  predicate LooksLikeBytes(v: string) {
    && StartsWith(v, "\\x") && |v| > 2 && |v| % 2 == 0
    && AllHex(v[2..])
  }

  /** A string value read as a parameter. */
  function StringParam(v: string): (p: Param) {
    if LooksLikeBytes(v) then Bytes(Unhex(v[2..])) else Text(v)
  }

  function ParseNumber(t: string): (r: Parse<Param>)
    ensures r.Ok? ==> |r.value.rest| < |t|
  {
    var end := NumberSpan(t);
    var i :- ParseI64(t[..end]);
    Ok(Parsed(Int(i), t[end..]))
  }

  function ParseParam(s: string): (r: Parse<Param>)
    ensures r.Ok? ==> |r.value.rest| < |s|
  {
    var t := TrimStart(s);
    if StartsWith(t, "null") then Ok(Parsed(Null, t[4..]))
    else if StartsWith(t, "\"") then
      var p :- ParseString(t);
      Ok(Parsed(StringParam(p.value), p.rest))
    else ParseNumber(t)
  }

  /** Elements up to and including the closing bracket. */
  function ParseItems(s: string): (r: Parse<seq<Param>>)
    ensures r.Ok? ==> |r.value.rest| < |s|
    decreases |s|
  {
    var p :- ParseParam(s);
    var t := TrimStart(p.rest);
    if StartsWith(t, "]") then Ok(Parsed([p.value], t[1..]))
    else if !StartsWith(t, ",") then Err(NoComma)
    else Resume([p.value], ParseItems(TrimStart(t[1..])))
  }

  function ParseArray(s: string): (r: Parse<seq<Param>>)
    ensures r.Ok? ==> |r.value.rest| < |s|
  {
    var t := TrimStart(s);
    if !StartsWith(t, "[") then Err(NoBracket)
    else
      var u := TrimStart(t[1..]);
      if StartsWith(u, "]") then Ok(Parsed([], u[1..])) else ParseItems(u)
  }

  /** Length of the prefix before the first comma or closing brace. */
  function TokenSpan(s: string): (n: nat)
    ensures n <= |s|
  {
    if s == "" || s[0] == ',' || s[0] == '}' then 0 else 1 + TokenSpan(s[1..])
  }

  /** The text behind the value of an unknown key. */
  function SkipValue(s: string): (r: Result<string, ParseError>)
    ensures r.Ok? ==> |r.value| <= |s|
  {
    var t := TrimStart(s);
    if StartsWith(t, "\"") then
      var p :- ParseString(t);
      Ok(p.rest)
    else if StartsWith(t, "[") then
      var p :- ParseArray(t);
      Ok(p.rest)
    else if StartsWith(t, "null") then Ok(t[4..])
    else Ok(t[TokenSpan(t)..])
  }

  /** What the line parser has collected so far. */
  datatype Fields = Fields(id: Option<Bytes16>, sql: Option<string>, params: Option<seq<Param>>)

  function SetId(f: Fields, p: Parsed<string>): (r: Parse<Fields>)
    ensures r.Ok? ==> r.value.rest == p.rest
  {
    match Uuid.Parse(p.value)
    case Ok(u) => Ok(Parsed(f.(id := Some(u)), p.rest))
    case Err(_) => Err(BadId)
  }

  /** The value of one known or unknown key. */
  function ParseValue(key: string, s: string, f: Fields): (r: Parse<Fields>)
    ensures r.Ok? ==> |r.value.rest| <= |s|
  {
    if key == ID_KEY then
      var p :- ParseString(s);
      SetId(f, p)
    else if key == SQL_KEY then
      var p :- ParseString(s);
      Ok(Parsed(f.(sql := Some(p.value)), p.rest))
    else if key == PARAMS_KEY then
      var p :- ParseArray(s);
      Ok(Parsed(f.(params := Some(p.value)), p.rest))
    else
      var rest :- SkipValue(s);
      Ok(Parsed(f, rest))
  }

  /** One `"key":value`. */
  function ParseField(s: string, f: Fields): (r: Parse<Fields>)
    ensures r.Ok? ==> |r.value.rest| < |s|
  {
    var key :- ParseString(s);
    var t := TrimStart(key.rest);
    if !StartsWith(t, ":") then Err(NoColon)
    else ParseValue(key.value, TrimStart(t[1..]), f)
  }

  /** What is left after a field: white space and one comma are skipped. */
  function AfterField(s: string): (r: string)
    ensures |r| <= |s|
  {
    var t := TrimStart(s);
    if StartsWith(t, ",") then TrimStart(t[1..]) else t
  }

  function ParseFields(s: string, f: Fields): (r: Result<Fields, ParseError>)
    decreases |s|
  {
    if s == "" then Ok(f)
    else
      var p :- ParseField(s, f);
      var t := AfterField(p.rest);
      if StartsWith(t, "}") then Ok(p.value) else ParseFields(t, p.value)
  }

  const NO_FIELDS := Fields(None, None, None)

  /** `parse_payload_json`. */
  function ParsePayload(line: string): (r: Result<Mutation, ParseError>) {
    var t := Trim(line);
    if !StartsWith(t, "{") then Err(NoBrace)
    else
      var f :- ParseFields(TrimStart(t[1..]), NO_FIELDS);
      Finish(f)
  }

  /** Identifier and statement are mandatory, parameters default to none. */
  function Finish(f: Fields): (r: Result<Mutation, ParseError>) {
    if f.id.None? then Err(MissingId)
    else if f.sql.None? then Err(MissingSql)
    else Ok(Mutation(f.id.value, f.sql.value, if f.params.None? then [] else f.params.value))
  }

  // ------------------------------------------------- the parser's own loops

  lemma ResumeTwice<T>(out: seq<T>, x: T, r: Parse<seq<T>>)
    ensures Resume(out, Resume([x], r)) == Resume(out + [x], r)
  {
    if r.Ok? {
      assert out + ([x] + r.value.value) == out + [x] + r.value.value;
    }
  }

  lemma ResumeNone<T>(r: Parse<seq<T>>)
    ensures Resume([], r) == r
  {
    if r.Ok? {
      assert [] + r.value.value == r.value.value;
    }
  }

  /** `parse_json_string`: a scan with an index and an output buffer. */
  method ParseJsonString(s: string) returns (r: Parse<string>)
    ensures r == ParseString(s)
  {
    if s == "" || s[0] != '"' {
      return Err(ExpectedString);
    }
    var out := "";
    var i := 1;
    ResumeNone(Unquote(s[1..]));
    while i < |s|
      invariant 1 <= i <= |s|
      invariant ParseString(s) == Resume(out, Unquote(s[i..]))
    {
      var c := s[i];
      if c == '"' {
        assert s[i..][1..] == s[i + 1..] && out + "" == out;
        return Ok(Parsed(out, s[i + 1..]));
      } else if c == '\\' {
        if i + 1 == |s| {
          return Err(Unclosed);
        }
        var next := s[i + 1];
        if next != '"' && next != '\\' {
          return Err(BadEscape(next));
        }
        assert s[i..][2..] == s[i + 2..];
        ResumeTwice(out, next, Unquote(s[i + 2..]));
        out := out + [next];
        i := i + 2;
      } else {
        assert s[i..][1..] == s[i + 1..];
        ResumeTwice(out, c, Unquote(s[i + 1..]));
        out := out + [c];
        i := i + 1;
      }
    }
    return Err(Unclosed);
  }

  /** `parse_json_array`: a loop that shortens `rest` and grows `out`. */
  method ParseJsonArray(s: string) returns (r: Parse<seq<Param>>)
    ensures r == ParseArray(s)
  {
    var rest := TrimStart(s);
    if !StartsWith(rest, "[") {
      return Err(NoBracket);
    }
    rest := TrimStart(rest[1..]);
    var out: seq<Param> := [];
    if StartsWith(rest, "]") {
      return Ok(Parsed(out, rest[1..]));
    }
    ResumeNone(ParseItems(rest));
    while true
      invariant ParseArray(s) == Resume(out, ParseItems(rest))
      decreases |rest|
    {
      var p := ParseParam(rest);
      if p.Err? {
        return Err(p.error);
      }
      var after := TrimStart(p.value.rest);
      if StartsWith(after, "]") {
        return Ok(Parsed(out + [p.value.value], after[1..]));
      }
      if !StartsWith(after, ",") {
        return Err(NoComma);
      }
      rest := TrimStart(after[1..]);
      ResumeTwice(out, p.value.value, ParseItems(rest));
      out := out + [p.value.value];
    }
  }

  /** `parse_payload_json`: collects fields until the closing brace. */
  method ParsePayloadJson(line: string) returns (r: Result<Mutation, ParseError>)
    ensures r == ParsePayload(line)
  {
    var rest := Trim(line);
    if !StartsWith(rest, "{") {
      return Err(NoBrace);
    }
    rest := TrimStart(rest[1..]);
    var f := NO_FIELDS;
    ghost var all := ParseFields(rest, f);
    while rest != ""
      invariant ParseFields(rest, f) == all
      decreases |rest|
    {
      var p := ParseField(rest, f);
      if p.Err? {
        return Err(p.error);
      }
      f := p.value.value;
      rest := AfterField(p.value.rest);
      if StartsWith(rest, "}") {
        return Finish(f);
      }
    }
    return Finish(f);
  }
}
