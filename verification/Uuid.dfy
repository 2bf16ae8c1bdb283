/** UUID version 7 (section 5.7 of RFC 9562) as the WAL builds, prints, sorts
    and parses it. */
module Uuid {
  import opened Common

  /** Rust's `[u8; 16]`. */
  type Bytes16 = b: seq<byte> | |b| == 16 witness seq(16, i => 0)

  /** Rust's `u64`. */
  type u64 = x: int | 0 <= x < 0x1_0000_0000_0000_0000

  /** Six timestamp bytes, then the version and variant bits merged with
      random bits, then the low seven random bytes. Shifts and masks on `u8`
      are written as division and remainder. */
  function FromParts(ts: u64, rand: u64): (u: Bytes16) {
    var r0 := rand / 0x100_0000_0000 % 256;
    var r1 := rand / 0x1_0000_0000 % 256;
    BigEndian(ts, 6)
    + [0x70 + r0 / 16, r0 % 16 * 16 + r1 / 16, 0x80 + r1 % 16]
    + BigEndian(rand, 7)
  }

  // ------------------------------------------------------------ text form

  function HexDigit(d: int): (c: char)
    requires 0 <= d < 16
  {
    if d < 10 then ('0' as int + d) as char else ('a' as int + d - 10) as char
  }

  /** `{b:02x}`. */
  function HexByte(b: byte): (s: string)
    ensures |s| == 2
  {
    [HexDigit(b / 16), HexDigit(b % 16)]
  }

  function Hex(bytes: seq<byte>): (s: string)
    ensures |s| == 2 * |bytes|
  {
    if bytes == [] then "" else HexByte(bytes[0]) + Hex(bytes[1..])
  }

  /** Canonical `8-4-4-4-12` text. */
  function ToText(u: Bytes16): (s: string)
    ensures |s| == 36
  {
    var h := Hex(u);
    h[0..8] + "-" + h[8..12] + "-" + h[12..16] + "-" + h[16..20] + "-" + h[20..32]
  }

  predicate IsHexDigit(c: char) {
    '0' <= c <= '9' || 'a' <= c <= 'f' || 'A' <= c <= 'F'
  }

  predicate AllHex(s: string) {
    forall i :: 0 <= i < |s| ==> IsHexDigit(s[i])
  }

  function DigitValue(c: char): (d: int)
    requires IsHexDigit(c)
    ensures 0 <= d < 16
  {
    if c <= '9' then c as int - '0' as int
    else if c <= 'F' then c as int - 'A' as int + 10
    else c as int - 'a' as int + 10
  }

  function PairValue(hi: char, lo: char): (b: byte)
    requires IsHexDigit(hi) && IsHexDigit(lo)
  {
    DigitValue(hi) * 16 + DigitValue(lo)
  }

  /** Pairs of hex digits to bytes (`from_str_radix(.., 16)` two by two). */
  function Unhex(s: string): (b: seq<byte>)
    requires |s| % 2 == 0 && AllHex(s)
    ensures |b| == |s| / 2
  {
    if s == "" then [] else
      [PairValue(s[0], s[1])] + Unhex(s[2..])
  }

  function DropDashes(s: string): (r: string)
    ensures '-' !in r
  {
    if s == "" then ""
    else if s[0] == '-' then DropDashes(s[1..])
    else [s[0]] + DropDashes(s[1..])
  }

  datatype UuidError = BadUuid(text: string)

  function Parse(s: string): (r: Result<Bytes16, UuidError>) {
    var hex := DropDashes(s);
    if |hex| != 32 || !AllHex(hex) then Err(BadUuid(s)) else Ok(Unhex(hex))
  }

  /** `{uuid}.wal`. */
  function FileName(ts: u64, rand: u64): (name: string) {
    ToText(FromParts(ts, rand)) + ".wal"
  }

  // ------------------------------------------------- bytes, dashes, parsing

  lemma DigitValueOf(d: int)
    requires 0 <= d < 16
    ensures IsHexDigit(HexDigit(d)) && DigitValue(HexDigit(d)) == d
    ensures HexDigit(d) != '-'
  {
  }

  lemma DigitOrder(a: int, b: int)
    requires 0 <= a < b < 16
    ensures HexDigit(a) < HexDigit(b)
  {
  }

  lemma {:induction false} HexDigits(bytes: seq<byte>)
    ensures AllHex(Hex(bytes)) && '-' !in Hex(bytes)
  {
    if bytes != [] {
      DigitValueOf(bytes[0] / 16);
      DigitValueOf(bytes[0] % 16);
      HexDigits(bytes[1..]);
    }
  }

  lemma AllHexPair(x: byte, t: string)
    requires AllHex(t)
    ensures AllHex(HexByte(x) + t)
  {
    DigitValueOf(x / 16);
    DigitValueOf(x % 16);
  }

  lemma PairValueOf(x: byte)
    ensures IsHexDigit(HexByte(x)[0]) && IsHexDigit(HexByte(x)[1])
    ensures PairValue(HexByte(x)[0], HexByte(x)[1]) == x
  {
    DigitValueOf(x / 16);
    DigitValueOf(x % 16);
  }

  lemma UnhexPair(x: byte, p: string, t: string)
    requires |p| == 2 && |t| % 2 == 0 && AllHex(p + t) && AllHex(t)
    requires IsHexDigit(p[0]) && IsHexDigit(p[1]) && PairValue(p[0], p[1]) == x
    ensures Unhex(p + t) == [x] + Unhex(t)
  {
    var s := p + t;
    assert s[2..] == t && s[0] == p[0] && s[1] == p[1];
  }

  lemma {:induction false} UnhexHex(bytes: seq<byte>)
    ensures AllHex(Hex(bytes)) && Unhex(Hex(bytes)) == bytes
  {
    if bytes != [] {
      UnhexHex(bytes[1..]);
      AllHexPair(bytes[0], Hex(bytes[1..]));
      PairValueOf(bytes[0]);
      UnhexPair(bytes[0], HexByte(bytes[0]), Hex(bytes[1..]));
    }
  }

  lemma {:induction false} DropDashesAppend(a: string, b: string)
    ensures DropDashes(a + b) == DropDashes(a) + DropDashes(b)
  {
    if a == "" {
      assert a + b == b;
    } else {
      assert (a + b)[1..] == a[1..] + b;
      DropDashesAppend(a[1..], b);
    }
  }

  lemma {:induction false} DropDashesNone(a: string)
    requires '-' !in a
    ensures DropDashes(a) == a
  {
    if a != "" {
      DropDashesNone(a[1..]);
    }
  }

  lemma DropDashesJoin(a: string, b: string)
    requires '-' !in b
    ensures DropDashes(a + "-" + b) == DropDashes(a) + b
  {
    DropDashesAppend(a + "-", b);
    DropDashesAppend(a, "-");
    DropDashesNone(b);
    assert DropDashes("-") == DropDashes("-"[1..]) == "";
  }

  /** Removing the four dashes of the canonical text leaves the hex digits. */
  lemma DropDashesToText(u: Bytes16)
    ensures DropDashes(ToText(u)) == Hex(u)
  {
    var h := Hex(u);
    HexDigits(u);
    DropDashesNone(h[0..8]);
    var p := h[0..8];
    DropDashesJoin(p, h[8..12]);
    p := p + "-" + h[8..12];
    DropDashesJoin(p, h[12..16]);
    p := p + "-" + h[12..16];
    DropDashesJoin(p, h[16..20]);
    p := p + "-" + h[16..20];
    DropDashesJoin(p, h[20..32]);
    assert h == h[0..8] + h[8..12] + h[12..16] + h[16..20] + h[20..32];
  }

  /** `parse_uuid` inverts `uuidv7_string`, so the text determines the bytes. */
  lemma ParseInvertsToText(u: Bytes16)
    ensures Parse(ToText(u)) == Ok(u)
  {
    DropDashesToText(u);
    UnhexHex(u);
  }

  // ------------------------------------------------------------- ordering

  /** Strict lexicographic order, the order of Rust's slices. */
  ghost predicate LexLess(a: seq<int>, b: seq<int>) {
    exists k: nat :: LexAt(a, b, k)
  }

  /** `a` and `b` agree before `k`, and `a` is smaller there. */
  ghost predicate LexAt(a: seq<int>, b: seq<int>, k: nat) {
    && k <= |a| && k < |b|
    && (forall i :: 0 <= i < k ==> a[i] == b[i])
    && (k < |a| ==> a[k] < b[k])
  }

  ghost function Codes(s: string): (c: seq<int>)
    ensures |c| == |s| && forall i :: 0 <= i < |s| ==> c[i] == s[i] as int
  {
    seq(|s|, i requires 0 <= i < |s| => s[i] as int)
  }

  /** Sorted file names compare character by character. */
  ghost predicate NameLess(a: string, b: string) {
    LexLess(Codes(a), Codes(b))
  }

  /** A difference inside equally long parts survives any common head in
      front and any tails behind. */
  lemma LexFrame(p: seq<int>, a: seq<int>, b: seq<int>, s: seq<int>, t: seq<int>)
    requires |a| == |b| && LexLess(a, b)
    ensures LexLess(p + a + s, p + b + t)
  {
    var k: nat :| LexAt(a, b, k);
    assert LexAt(p + a + s, p + b + t, |p| + k);
  }

  lemma NameFrame(p: string, a: string, b: string, s: string, t: string)
    requires |a| == |b| && NameLess(a, b)
    ensures NameLess(p + a + s, p + b + t)
  {
    LexFrame(Codes(p), Codes(a), Codes(b), Codes(s), Codes(t));
    assert Codes(p + a + s) == Codes(p) + Codes(a) + Codes(s);
    assert Codes(p + b + t) == Codes(p) + Codes(b) + Codes(t);
  }

  lemma {:induction false} BigEndianOrder(m: nat, n: nat, k: nat)
    requires m < n < Pow256(k)
    ensures LexLess(BigEndian(m, k), BigEndian(n, k))
  {
    if m / 256 == n / 256 {
      assert LexAt(BigEndian(m, k), BigEndian(n, k), k - 1);
    } else {
      BigEndianOrder(m / 256, n / 256, k - 1);
      var a, b := BigEndian(m / 256, k - 1), BigEndian(n / 256, k - 1);
      var j: nat :| LexAt(a, b, j);
      assert LexAt(BigEndian(m, k), BigEndian(n, k), j);
    }
  }

  lemma {:induction false} HexAppend(a: seq<byte>, b: seq<byte>)
    ensures Hex(a + b) == Hex(a) + Hex(b)
  {
    if a == [] {
      assert a + b == b;
    } else {
      assert (a + b)[1..] == a[1..] + b;
      HexAppend(a[1..], b);
    }
  }

  lemma HexByteOrder(a: byte, b: byte)
    requires a < b
    ensures NameLess(HexByte(a), HexByte(b))
  {
    var x, y := Codes(HexByte(a)), Codes(HexByte(b));
    if a / 16 == b / 16 {
      DigitOrder(a % 16, b % 16);
      assert LexAt(x, y, 1);
    } else {
      DigitOrder(a / 16, b / 16);
      assert LexAt(x, y, 0);
    }
  }

  lemma HexAround(p: seq<byte>, x: byte, s: seq<byte>)
    ensures Hex(p + [x] + s) == Hex(p) + HexByte(x) + Hex(s)
  {
    HexAppend(p + [x], s);
    HexAppend(p, [x]);
    assert Hex([x]) == HexByte(x) + Hex([x][1..]);
  }

  /** Hex text keeps the byte order. */
  lemma HexOrder(a: seq<byte>, b: seq<byte>)
    requires |a| == |b| && LexLess(a, b)
    ensures NameLess(Hex(a), Hex(b))
  {
    var k: nat :| LexAt(a, b, k);
    var p, s, t := a[..k], a[k + 1..], b[k + 1..];
    assert a == p + [a[k]] + s && b == p + [b[k]] + t;
    HexAround(p, a[k], s);
    HexAround(p, b[k], t);
    HexByteOrder(a[k], b[k]);
    NameFrame(Hex(p), HexByte(a[k]), HexByte(b[k]), Hex(s), Hex(t));
  }

  function InsertDash(s: string, p: nat): (r: string)
    requires p <= |s|
    ensures |r| == |s| + 1
  {
    s[..p] + "-" + s[p..]
  }

  /** Inserting the same character at the same place keeps the order. */
  lemma InsertDashOrder(a: string, b: string, p: nat)
    requires |a| == |b| && p <= |a| && NameLess(a, b)
    ensures NameLess(InsertDash(a, p), InsertDash(b, p))
  {
    var k: nat :| LexAt(Codes(a), Codes(b), k);
    var x, y := InsertDash(a, p), InsertDash(b, p);
    var j := if k < p then k else k + 1;
    forall i | 0 <= i < j
      ensures x[i] == y[i]
    {
      if i < p {
        assert Codes(a)[i] == Codes(b)[i];
      } else if i > p {
        assert Codes(a)[i - 1] == Codes(b)[i - 1];
      }
    }
    assert LexAt(Codes(x), Codes(y), j);
  }

  lemma ToTextInserts(u: Bytes16)
    ensures ToText(u) == InsertDash(InsertDash(InsertDash(InsertDash(Hex(u), 20), 16), 12), 8)
  {
    InsertFour(Hex(u));
  }

  lemma InsertFour(h: string)
    requires |h| == 32
    ensures InsertDash(InsertDash(InsertDash(InsertDash(h, 20), 16), 12), 8)
         == h[0..8] + "-" + h[8..12] + "-" + h[12..16] + "-" + h[16..20] + "-" + h[20..32]
  {
    var a := InsertDash(h, 20);
    var b := InsertDash(a, 16);
    assert b == h[..16] + "-" + h[16..20] + "-" + h[20..];
    var c := InsertDash(b, 12);
    assert c == h[..12] + "-" + h[12..16] + "-" + h[16..20] + "-" + h[20..];
  }

  lemma ToTextOrder(u: Bytes16, v: Bytes16)
    requires LexLess(u, v)
    ensures NameLess(ToText(u), ToText(v))
  {
    HexOrder(u, v);
    var a, b := Hex(u), Hex(v);
    InsertDashOrder(a, b, 20);
    var a1, b1 := InsertDash(a, 20), InsertDash(b, 20);
    InsertDashOrder(a1, b1, 16);
    var a2, b2 := InsertDash(a1, 16), InsertDash(b1, 16);
    InsertDashOrder(a2, b2, 12);
    InsertDashOrder(InsertDash(a2, 12), InsertDash(b2, 12), 8);
    ToTextInserts(u);
    ToTextInserts(v);
  }

  /** Sorting WAL files by name is sorting them by millisecond, whatever the
      random bits are: bytes, canonical text and file name all keep the order
      of timestamps below 2^48. */
  lemma ChronologicalOrder(ts1: u64, rand1: u64, ts2: u64, rand2: u64)
    requires ts1 < ts2 < 0x1_0000_0000_0000
    ensures LexLess(FromParts(ts1, rand1), FromParts(ts2, rand2))
    ensures NameLess(ToText(FromParts(ts1, rand1)), ToText(FromParts(ts2, rand2)))
    ensures NameLess(FileName(ts1, rand1), FileName(ts2, rand2))
  {
    assert Pow256(6) == 0x1_0000_0000_0000;
    BigEndianOrder(ts1, ts2, 6);
    var u, v := FromParts(ts1, rand1), FromParts(ts2, rand2);
    LexFrame([], BigEndian(ts1, 6), BigEndian(ts2, 6), u[6..], v[6..]);
    assert u == [] + BigEndian(ts1, 6) + u[6..];
    assert v == [] + BigEndian(ts2, 6) + v[6..];
    ToTextOrder(u, v);
    var a, b := ToText(u), ToText(v);
    NameFrame("", a, b, ".wal", ".wal");
    assert "" + a == a && "" + b == b;
  }

  lemma LexTotal(a: seq<int>, b: seq<int>)
    requires |a| == |b|
    ensures a == b || LexLess(a, b) || LexLess(b, a)
  {
    var k: nat := 0;
    while k < |a| && a[k] == b[k]
      invariant k <= |a| && forall i :: 0 <= i < k ==> a[i] == b[i]
    {
      k := k + 1;
    }
    if k < |a| {
      assert if a[k] < b[k] then LexAt(a, b, k) else LexAt(b, a, k);
    }
  }

  /** The millisecond, then the ten bytes with the random bits. */
  ghost predicate Earlier(ts1: u64, rand1: u64, ts2: u64, rand2: u64) {
    var t1, t2 := ts1 % 0x1_0000_0000_0000, ts2 % 0x1_0000_0000_0000;
    t1 < t2 || (t1 == t2 && LexLess(FromParts(ts1, rand1)[6..], FromParts(ts2, rand2)[6..]))
  }

  /** Smaller bytes, smaller text, smaller file name. */
  ghost predicate AllBelow(ts1: u64, rand1: u64, ts2: u64, rand2: u64) {
    && LexLess(FromParts(ts1, rand1), FromParts(ts2, rand2))
    && NameLess(ToText(FromParts(ts1, rand1)), ToText(FromParts(ts2, rand2)))
    && NameLess(FileName(ts1, rand1), FileName(ts2, rand2))
  }

  lemma EarlierBytes(ts1: u64, rand1: u64, ts2: u64, rand2: u64)
    requires Earlier(ts1, rand1, ts2, rand2)
    ensures AllBelow(ts1, rand1, ts2, rand2)
  {
    var t1, t2 := ts1 % 0x1_0000_0000_0000, ts2 % 0x1_0000_0000_0000;
    var u, v := FromParts(ts1, rand1), FromParts(ts2, rand2);
    Timestamp(ts1, rand1);
    Timestamp(ts2, rand2);
    assert u == [] + BigEndian(t1, 6) + u[6..] && v == [] + BigEndian(t2, 6) + v[6..];
    if t1 < t2 {
      assert Pow256(6) == 0x1_0000_0000_0000;
      BigEndianOrder(t1, t2, 6);
      LexFrame([], BigEndian(t1, 6), BigEndian(t2, 6), u[6..], v[6..]);
    } else {
      LexFrame(BigEndian(t1, 6), u[6..], v[6..], [], []);
      assert u == BigEndian(t1, 6) + u[6..] + [] && v == BigEndian(t1, 6) + v[6..] + [];
    }
    ToTextOrder(u, v);
    var a, b := ToText(u), ToText(v);
    NameFrame("", a, b, ".wal", ".wal");
    assert "" + a == a && "" + b == b;
  }

  lemma Timestamp(ts: u64, rand: u64)
    ensures FromParts(ts, rand)[..6] == BigEndian(ts % 0x1_0000_0000_0000, 6)
  {
    assert Pow256(6) == 0x1_0000_0000_0000;
    BigEndianEqual(ts, ts % 0x1_0000_0000_0000, 6);
    assert |BigEndian(ts, 6)| == 6;
  }

  lemma LexAsymmetric(a: seq<int>, b: seq<int>)
    requires LexLess(a, b)
    ensures !LexLess(b, a) && a != b
  {
    var k: nat :| LexAt(a, b, k);
    forall j: nat
      ensures !LexAt(b, a, j)
    {
    }
  }

  lemma NotBelow(ts1: u64, rand1: u64, ts2: u64, rand2: u64)
    requires AllBelow(ts2, rand2, ts1, rand1) || FromParts(ts1, rand1) == FromParts(ts2, rand2)
    ensures !LexLess(FromParts(ts1, rand1), FromParts(ts2, rand2))
    ensures !NameLess(ToText(FromParts(ts1, rand1)), ToText(FromParts(ts2, rand2)))
    ensures !NameLess(FileName(ts1, rand1), FileName(ts2, rand2))
  {
    var u, v := FromParts(ts1, rand1), FromParts(ts2, rand2);
    if LexLess(u, v) {
      LexAsymmetric(u, v);
    }
    if NameLess(ToText(u), ToText(v)) {
      NameLessAsymmetric(ToText(u), ToText(v));
    }
    if NameLess(FileName(ts1, rand1), FileName(ts2, rand2)) {
      NameLessAsymmetric(FileName(ts1, rand1), FileName(ts2, rand2));
    }
  }

  /** The exact order of two identifiers, as bytes, as text and as file names,
      for all timestamps and random words: by the millisecond, and within one
      millisecond by chance. */
  lemma FileNameExact(ts1: u64, rand1: u64, ts2: u64, rand2: u64)
    ensures LexLess(FromParts(ts1, rand1), FromParts(ts2, rand2)) <==> Earlier(ts1, rand1, ts2, rand2)
    ensures NameLess(ToText(FromParts(ts1, rand1)), ToText(FromParts(ts2, rand2))) <==>
            Earlier(ts1, rand1, ts2, rand2)
    ensures NameLess(FileName(ts1, rand1), FileName(ts2, rand2)) <==> Earlier(ts1, rand1, ts2, rand2)
  {
    var u, v := FromParts(ts1, rand1), FromParts(ts2, rand2);
    if Earlier(ts1, rand1, ts2, rand2) {
      EarlierBytes(ts1, rand1, ts2, rand2);
    } else if Earlier(ts2, rand2, ts1, rand1) {
      EarlierBytes(ts2, rand2, ts1, rand1);
      NotBelow(ts1, rand1, ts2, rand2);
    } else {
      LexTotal(u[6..], v[6..]);
      Timestamp(ts1, rand1);
      Timestamp(ts2, rand2);
      assert u == u[..6] + u[6..] && v == v[..6] + v[6..];
      NotBelow(ts1, rand1, ts2, rand2);
    }
  }

  /** In every millisecond there are two names that sort against the order in
      which they may be drawn. */
  lemma SameMillisecond(ts: u64)
    ensures NameLess(FileName(ts, 0), FileName(ts, 1))
  {
    var u, v := FromParts(ts, 0)[6..], FromParts(ts, 1)[6..];
    LastByte(0);
    LastByte(1);
    assert u == [0x70, 0, 0x80] + BigEndian(0, 7) && v == [0x70, 0, 0x80] + BigEndian(1, 7);
    assert LexAt(u, v, 9);
    FileNameExact(ts, 0, ts, 1);
  }

  lemma LastByte(n: nat)
    requires n < 256
    ensures BigEndian(n, 7) == [0, 0, 0, 0, 0, 0, n]
  {
    assert BigEndian(0, 3) == [0, 0, 0];
    assert BigEndian(0, 6) == BigEndian(0, 5) + [0];
    assert BigEndian(0, 5) == BigEndian(0, 4) + [0];
    assert BigEndian(0, 4) == BigEndian(0, 3) + [0];
    assert BigEndian(n, 7) == BigEndian(0, 6) + [n];
  }

  /** The order is strict: never both ways, and no name is below itself. */
  lemma NameLessAsymmetric(a: string, b: string)
    requires NameLess(a, b)
    ensures !NameLess(b, a) && a != b
  {
    var k: nat :| LexAt(Codes(a), Codes(b), k);
    forall j: nat
      ensures !LexAt(Codes(b), Codes(a), j)
    {
    }
  }

  lemma NameLessTransitive(a: string, b: string, c: string)
    requires NameLess(a, b) && NameLess(b, c)
    ensures NameLess(a, c)
  {
    var j: nat :| LexAt(Codes(a), Codes(b), j);
    var k: nat :| LexAt(Codes(b), Codes(c), k);
    assert LexAt(Codes(a), Codes(c), if j <= k then j else k);
  }

  lemma NameLessTotal(a: string, b: string)
    ensures a == b || NameLess(a, b) || NameLess(b, a)
  {
    var k: nat := 0;
    while k < |a| && k < |b| && a[k] == b[k]
      invariant k <= |a| && k <= |b|
      invariant forall i :: 0 <= i < k ==> a[i] == b[i]
    {
      k := k + 1;
    }
    if k < |b| && (k == |a| || a[k] < b[k]) {
      assert LexAt(Codes(a), Codes(b), k);
    } else if k < |a| {
      assert LexAt(Codes(b), Codes(a), k);
    }
  }

  // ------------------------------------------------------------- identity

  lemma {:induction false} BigEndianEqual(m: nat, n: nat, k: nat)
    ensures BigEndian(m, k) == BigEndian(n, k) <==> m % Pow256(k) == n % Pow256(k)
  {
    if k > 0 {
      BigEndianEqual(m / 256, n / 256, k - 1);
      var a, b := BigEndian(m, k), BigEndian(n, k);
      assert a[..k - 1] == BigEndian(m / 256, k - 1) && b[..k - 1] == BigEndian(n / 256, k - 1);
      assert a[k - 1] == m % 256 && b[k - 1] == n % 256;
      assert a == b <==> (a[..k - 1] == b[..k - 1] && a[k - 1] == b[k - 1]) by {
        assert a == a[..k - 1] + [a[k - 1]] && b == b[..k - 1] + [b[k - 1]];
      }
      SplitModulus(m, Pow256(k - 1));
      SplitModulus(n, Pow256(k - 1));
    }
  }

  lemma SplitModulus(m: nat, p: nat)
    requires p >= 1
    ensures m % (256 * p) == m / 256 % p * 256 + m % 256
  {
    var q, r := m / 256, m % 256;
    var a, c := q / p, q % p;
    assert q == p * a + c;
    assert m == 256 * (p * a + c) + r;
    assert 256 * (p * a) == (256 * p) * a;
    Quotient(m, 256 * p, a, 256 * c + r);
  }

  /** Two identifiers are equal exactly when the timestamps agree modulo 2^48
      and the random words agree in their low 56 bits: the bits mixed into
      bytes 6 to 8 repeat bits that bytes 9 to 11 already carry. */
  lemma EqualIdentifiers(ts1: u64, rand1: u64, ts2: u64, rand2: u64)
    ensures FromParts(ts1, rand1) == FromParts(ts2, rand2) <==>
            ts1 % 0x1_0000_0000_0000 == ts2 % 0x1_0000_0000_0000 &&
            rand1 % 0x100_0000_0000_0000 == rand2 % 0x100_0000_0000_0000
  {
    assert Pow256(6) == 0x1_0000_0000_0000;
    assert Pow256(7) == 256 * Pow256(6);
    BigEndianEqual(ts1, ts2, 6);
    BigEndianEqual(rand1, rand2, 7);
    var u, v := FromParts(ts1, rand1), FromParts(ts2, rand2);
    assert u[..6] == BigEndian(ts1, 6) && u[9..] == BigEndian(rand1, 7);
    assert v[..6] == BigEndian(ts2, 6) && v[9..] == BigEndian(rand2, 7);
    RepeatedBytes(rand1);
    RepeatedBytes(rand2);
  }

  lemma FourBytesDown(n: nat)
    ensures n / 256 / 256 / 256 / 256 == n / 0x1_0000_0000
  {
    var a := n / 256;
    var b := a / 256;
    var c := b / 256;
    var d := c / 256;
    assert n == 0x1_0000_0000 * d + (0x100_0000 * (c % 256) + 0x1_0000 * (b % 256) + 256 * (a % 256) + n % 256);
  }

  /** The two random bytes mixed in front are bytes 1 and 2 of the low seven. */
  lemma RepeatedBytes(rand: nat)
    ensures BigEndian(rand, 7)[2] == rand / 0x1_0000_0000 % 256
    ensures BigEndian(rand, 7)[1] == rand / 0x100_0000_0000 % 256
  {
    FourBytesDown(rand);
    var n := rand / 256 / 256 / 256 / 256;
    assert n / 256 == rand / 0x100_0000_0000 by {
      assert rand == 0x100_0000_0000 * (n / 256) + (0x1_0000_0000 * (n % 256) + rand % 0x1_0000_0000);
    }
    var b6 := BigEndian(rand / 256, 6);
    var b5 := BigEndian(rand / 256 / 256, 5);
    var b4 := BigEndian(rand / 256 / 256 / 256, 4);
    var b3 := BigEndian(n, 3);
    var b2 := BigEndian(n / 256, 2);
    assert b3 == b2 + [n % 256] && b4[..3] == b3 && b5[..4] == b4 && b6[..5] == b5;
    assert BigEndian(rand, 7)[..6] == b6;
    assert b2 == BigEndian(n / 256 / 256, 1) + [n / 256 % 256];
  }

  lemma FrontInFull(ts: u64, rand: u64, i: nat)
    requires i < 6
    ensures FromParts(ts, rand)[i] == ts / Pow256(5 - i) % 256
  {
    BigEndianAt(ts, 6, i);
    assert FromParts(ts, rand)[i] == BigEndian(ts, 6)[i];
  }

  lemma BackInFull(ts: u64, rand: u64, i: nat)
    requires 9 <= i < 16
    ensures FromParts(ts, rand)[i] == rand / Pow256(15 - i) % 256
  {
    BigEndianAt(rand, 7, i - 9);
    assert FromParts(ts, rand)[i] == BigEndian(rand, 7)[i - 9];
  }

  lemma MiddleInFull(ts: u64, rand: u64)
    ensures var u := FromParts(ts, rand);
            && (u[6] as int) % 16 * 256 + u[7] == rand / 0x10_0000_0000 % 4096
            && u[8] % 64 == rand / 0x1_0000_0000 % 16
  {
    var r0, r1 := rand / 0x100_0000_0000 % 256, rand / 0x1_0000_0000 % 256;
    MiddleBits(rand);
    assert FromParts(ts, rand)[6..9] == [0x70 + r0 / 16, r0 % 16 * 16 + r1 / 16, 0x80 + r1 % 16];
  }

  /** Where every bit of the timestamp and the random word goes: the low 48 bits
      of the timestamp in front, twelve random bits from bit 36 on behind the
      version, four more behind the variant, and the low 56 at the end. */
  lemma PartsInFull(ts: u64, rand: u64)
    ensures var u := FromParts(ts, rand);
            && (forall i :: 0 <= i < 6 ==> u[i] == ts / Pow256(5 - i) % 256)
            && (u[6] as int) % 16 * 256 + u[7] == rand / 0x10_0000_0000 % 4096
            && u[8] % 64 == rand / 0x1_0000_0000 % 16
            && (forall i :: 9 <= i < 16 ==> u[i] == rand / Pow256(15 - i) % 256)
  {
    var u := FromParts(ts, rand);
    forall i | 0 <= i < 6
      ensures u[i] == ts / Pow256(5 - i) % 256
    {
      FrontInFull(ts, rand, i);
    }
    MiddleInFull(ts, rand);
    forall i | 9 <= i < 16
      ensures u[i] == rand / Pow256(15 - i) % 256
    {
      BackInFull(ts, rand, i);
    }
  }

  lemma MiddleBits(rand: nat)
    ensures var r0, r1 := rand / 0x100_0000_0000 % 256, rand / 0x1_0000_0000 % 256;
            && r0 / 16 * 256 + (r0 % 16 * 16 + r1 / 16) == rand / 0x10_0000_0000 % 4096
            && r1 % 16 == rand / 0x1_0000_0000 % 16
  {
    DivideTwice(rand, 0x1_0000_0000, 256);
    DivideTwice(rand, 0x1_0000_0000, 16);
    TwelveBits(rand / 0x1_0000_0000);
  }

  lemma TwelveBits(n: nat)
    ensures n / 256 % 256 / 16 * 256 + (n / 256 % 256 % 16 * 16 + n % 256 / 16) == n / 16 % 4096
    ensures n % 256 % 16 == n % 16
  {
  }

  /** Where the digits and dashes stand. */
  function Place(i: nat): (p: nat)
    requires i < 16
    ensures p < 35
  {
    2 * i + if i < 4 then 0 else if i < 6 then 1 else if i < 8 then 2 else if i < 10 then 3 else 4
  }

  lemma {:induction false} HexAt(bytes: seq<byte>, i: nat)
    requires i < |bytes|
    ensures Hex(bytes)[2 * i..2 * i + 2] == HexByte(bytes[i])
  {
    if i > 0 {
      HexAt(bytes[1..], i - 1);
      assert Hex(bytes)[2 * i..2 * i + 2] == Hex(bytes[1..])[2 * i - 2..2 * i];
    }
  }

  lemma DigitInFull(d: int)
    requires 0 <= d < 16
    ensures HexDigit(d) == "0123456789abcdef"[d]
  {
  }

  /** The text in full: two lower-case digits a byte, with dashes at 8, 13, 18 and
      23; the file name has `.wal` behind it. */
  lemma TextInFull(u: Bytes16, i: nat)
    requires i < 16
    ensures var t := ToText(u);
            && t[Place(i)] == "0123456789abcdef"[u[i] / 16] && t[Place(i) + 1] == "0123456789abcdef"[u[i] % 16]
            && t[8] == '-' && t[13] == '-' && t[18] == '-' && t[23] == '-'
  {
    HexAt(u, i);
    DigitInFull(u[i] / 16);
    DigitInFull(u[i] % 16);
    assert Hex(u)[2 * i..2 * i + 2][0] == Hex(u)[2 * i] && Hex(u)[2 * i..2 * i + 2][1] == Hex(u)[2 * i + 1];
  }

  lemma NameInFull(ts: u64, rand: u64)
    ensures FileName(ts, rand)[..36] == ToText(FromParts(ts, rand)) && FileName(ts, rand)[36..] == ".wal"
  {
  }

  /** What parses as an identifier: 32 hex digits of either case, with dashes
      anywhere. */
  lemma ParseAccepts(s: string)
    ensures Parse(s).Ok? <==> |DropDashes(s)| == 32 &&
                              forall i :: 0 <= i < 32 ==> DropDashes(s)[i] in "0123456789abcdefABCDEF"
  {
    forall c: char
      ensures IsHexDigit(c) <==> c in "0123456789abcdefABCDEF"
    {
      DigitsListed(c);
    }
  }

  lemma DigitsListed(c: char)
    ensures IsHexDigit(c) <==> c in "0123456789abcdefABCDEF"
  {
    var all := "0123456789abcdefABCDEF";
    if IsHexDigit(c) {
      var k := if c <= '9' then c as int - '0' as int
               else if c <= 'F' then c as int - 'A' as int + 16 else c as int - 'a' as int + 10;
      assert all[k] == c;
    }
  }

  /** Version 7 in the high half of byte 6, variant `10` in the top two bits
      of byte 8, for every timestamp and random word. */
  lemma VersionAndVariant(ts: u64, rand: u64)
    ensures FromParts(ts, rand)[6] / 16 == 7
    ensures FromParts(ts, rand)[8] / 64 == 2
    ensures FromParts(ts, rand)[..6] == BigEndian(ts, 6)
  {
    var r0 := rand / 0x100_0000_0000 % 256;
    assert |BigEndian(ts, 6)| == 6;
  }
}
