/** SHA-1: the in-place digest, and the hash of FIPS 180-1 it computes. */
module Sha1 {
  import opened Common
  import opened Words

  const BLOCK := 64

  // --------------------------------------------------- padding (section 4)

  function Zeros(n: nat): (s: seq<byte>)
    ensures |s| == n
  {
    seq(n, i => 0)
  }

  /** The big-endian value of some bytes. */
  function Value(s: seq<byte>): (v: nat)
    ensures v < Pow256(|s|)
  {
    if s == [] then 0 else 256 * Value(s[..|s| - 1]) + s[|s| - 1]
  }

  lemma {:induction false} ValueOfBigEndian(v: nat, n: nat)
    requires v < Pow256(n)
    ensures Value(BigEndian(v, n)) == v
  {
    if n > 0 {
      ValueOfBigEndian(v / 256, n - 1);
      assert BigEndian(v, n)[..n - 1] == BigEndian(v / 256, n - 1);
    }
  }

  /** How many zero bytes follow the 0x80 of a message of `n` bytes. */
  function Gap(n: nat): (z: nat)
    ensures z < BLOCK && (n + 1 + z) % BLOCK == 56
  {
    (119 - n % BLOCK) % BLOCK
  }

  /** The length in bits as the 64-bit field holds it. */
  function BitLength(n: nat): (l: nat)
    ensures l < Pow256(8)
  {
    n * 8 % 0x1_0000_0000_0000_0000
  }

  /** The message, 0x80, the zero bytes and the length: whole blocks. */
  function Padded(data: seq<byte>): (m: seq<byte>)
    ensures |m| == |data| + 9 + Gap(|data|) && |m| % BLOCK == 0
  {
    WholeBlocks(|data|);
    data + [0x80] + Zeros(Gap(|data|)) + BigEndian(BitLength(|data|), 8)
  }

  lemma WholeBlocks(n: nat)
    ensures (n + 9 + Gap(n)) % BLOCK == 0
  {
    var m := n + 1 + Gap(n);
    assert m == 64 * (m / 64) + 56;
    assert m + 8 == 64 * (m / 64 + 1);
  }

  /** No smaller gap leads to whole blocks: the padding is the shortest. */
  lemma GapMinimal(n: nat, z: nat)
    requires (n + 9 + z) % BLOCK == 0
    ensures Gap(n) <= z
  {
    var q, r := n / BLOCK, n % BLOCK;
    assert n == BLOCK * q + r;
  }

  lemma PaddedAt(data: seq<byte>)
    ensures Padded(data)[..|data|] == data
    ensures Value(Padded(data)[|Padded(data)| - 8..]) == BitLength(|data|)
  {
    var field := BigEndian(BitLength(|data|), 8);
    ValueOfBigEndian(BitLength(|data|), 8);
    assert Padded(data)[|Padded(data)| - 8..] == field;
  }

  /** Lengths less than a block apart with the same length field are equal. */
  lemma SameField(m: nat, n: nat)
    requires m <= n < m + BLOCK && BitLength(m) == BitLength(n)
    ensures m == n
  {
  }

  /** Different messages are padded differently, whatever their lengths; the
      wrap of the length field does no harm, because the padded length already
      gives the message's length to within a block. */
  lemma PaddingInjective(x: seq<byte>, y: seq<byte>)
    ensures Padded(x) == Padded(y) <==> x == y
  {
    PaddedAt(x);
    PaddedAt(y);
    if Padded(x) == Padded(y) {
      if |x| <= |y| {
        SameField(|x|, |y|);
      } else {
        SameField(|y|, |x|);
      }
    }
  }

  lemma FieldExact(n: nat)
    ensures BitLength(n) == 8 * n <==> n < 0x2000_0000_0000_0000
  {
  }

  /** The last eight bytes are the length in bits exactly for messages shorter
      than 2^61 bytes. */
  lemma FieldIsLength(data: seq<byte>)
    ensures Value(Padded(data)[|Padded(data)| - 8..]) == 8 * |data| <==> |data| < 0x2000_0000_0000_0000
  {
    PaddedAt(data);
    FieldExact(|data|);
  }

  // ----------------------------------- words and rounds (sections 2, 3, 5, 7)

  lemma FourBytes(s: seq<byte>)
    requires |s| == 4
    ensures Value(s) < 0x1_0000_0000
  {
    assert Pow256(4) == 0x1_0000_0000;
  }

  function WordOf(s: seq<byte>): (w: Word)
    requires |s| == 4
  {
    FourBytes(s);
    Value(s)
  }

  function Parity4(x: Word, y: Word, z: Word, w: Word): (r: Word) {
    Gated(Xor, Gated(Xor, Gated(Xor, x, y), z), w)
  }

  /** The word sequence W of a block. */
  function W(block: seq<byte>, t: nat): (w: Word)
    requires |block| == BLOCK && t < 80
  {
    if t < 16 then WordOf(block[4 * t..4 * t + 4])
    else Rotl(1, Parity4(W(block, t - 3), W(block, t - 8), W(block, t - 14), W(block, t - 16)))
  }

  /** A word is its four bytes, most significant first. */
  lemma WordOfBytes(s: seq<byte>)
    requires |s| == 4
    ensures WordOf(s) == 0x100_0000 * (s[0] as int) + 0x1_0000 * (s[1] as int) + 0x100 * (s[2] as int) + s[3]
  {
    var a, b, c := s[..3], s[..2], s[..1];
    assert a[..2] == b && b[..1] == c && c[..0] == [];
    assert Value(c) == s[0] && Value(b) == 0x100 * Value(c) + s[1];
    assert Value(a) == 0x100 * Value(b) + s[2] && Value(s) == 0x100 * Value(a) + s[3];
  }

  /** The first sixteen words are the bytes of the block, four by four. */
  lemma FirstWords(block: seq<byte>, t: nat)
    requires |block| == BLOCK && t < 16
    ensures W(block, t) == 0x100_0000 * (block[4 * t] as int) + 0x1_0000 * (block[4 * t + 1] as int)
                           + 0x100 * (block[4 * t + 2] as int) + block[4 * t + 3]
  {
    WordOfBytes(block[4 * t..4 * t + 4]);
  }

  lemma Parity4Bit(x: Word, y: Word, z: Word, w: Word, i: nat)
    requires i < 32
    ensures Bit(Parity4(x, y, z, w), i) == (Bit(x, i) + Bit(y, i) + Bit(z, i) + Bit(w, i)) % 2
  {
    GatedBit(Xor, x, y, i);
    GatedBit(Xor, Gated(Xor, x, y), z, i);
    GatedBit(Xor, Gated(Xor, Gated(Xor, x, y), z), w, i);
  }

  /** Every later word is the parity of four earlier ones, bit by bit, and one
      place up around the end. */
  lemma LaterWords(block: seq<byte>, t: nat, j: nat)
    requires |block| == BLOCK && 16 <= t < 80 && j < 32
    ensures Bit(W(block, t), (j + 1) % 32) ==
            (Bit(W(block, t - 3), j) + Bit(W(block, t - 8), j) + Bit(W(block, t - 14), j)
             + Bit(W(block, t - 16), j)) % 2
  {
    TurnedParity(W(block, t - 3), W(block, t - 8), W(block, t - 14), W(block, t - 16), j);
  }

  lemma TurnedParity(x: Word, y: Word, z: Word, w: Word, j: nat)
    requires j < 32
    ensures Bit(Rotl(1, Parity4(x, y, z, w)), (j + 1) % 32) == (Bit(x, j) + Bit(y, j) + Bit(z, j) + Bit(w, j)) % 2
  {
    Parity4Bit(x, y, z, w, j);
    RotlBit(1, Parity4(x, y, z, w), j);
  }

  function F(t: nat, b: Word, c: Word, d: Word): (w: Word) {
    if t < 20 then Gated(Or, Gated(And, b, c), Gated(And, Inverted(b), d))
    else if t < 40 then Gated(Xor, Gated(Xor, b, c), d)
    else if t < 60 then Gated(Or, Gated(Or, Gated(And, b, c), Gated(And, b, d)), Gated(And, c, d))
    else Gated(Xor, Gated(Xor, b, c), d)
  }

  function K(t: nat): (w: Word) {
    if t < 20 then 0x5A82_7999
    else if t < 40 then 0x6ED9_EBA1
    else if t < 60 then 0x8F1B_BCDC
    else 0xCA62_C1D6
  }

  /** Bit by bit: the first function chooses by `b`, the third is the majority,
      the others are the parity of the three. */
  lemma FBits(t: nat, b: Word, c: Word, d: Word, i: nat)
    requires i < 32
    ensures Bit(F(t, b, c, d), i) ==
            if t < 20 then (if Bit(b, i) == 1 then Bit(c, i) else Bit(d, i))
            else if 40 <= t < 60 then (if Bit(b, i) + Bit(c, i) + Bit(d, i) >= 2 then 1 else 0)
            else (Bit(b, i) + Bit(c, i) + Bit(d, i)) % 2
  {
    if t < 20 {
      InvertedBit(b, i);
      GatedBit(And, b, c, i);
      GatedBit(And, Inverted(b), d, i);
      GatedBit(Or, Gated(And, b, c), Gated(And, Inverted(b), d), i);
    } else if 40 <= t < 60 {
      GatedBit(And, b, c, i);
      GatedBit(And, b, d, i);
      GatedBit(And, c, d, i);
      GatedBit(Or, Gated(And, b, c), Gated(And, b, d), i);
      GatedBit(Or, Gated(Or, Gated(And, b, c), Gated(And, b, d)), Gated(And, c, d), i);
    } else {
      GatedBit(Xor, b, c, i);
      GatedBit(Xor, Gated(Xor, b, c), d, i);
    }
  }

  /** The constants of the rounds are 2^30 times the square roots of 2, 3, 5
      and 10, rounded down. */
  lemma RoundConstants(t: nat)
    ensures var n := if t < 20 then 2 else if t < 40 then 3 else if t < 60 then 5 else 10;
            K(t) * K(t) <= n * 0x1000_0000_0000_0000 < (K(t) + 1) * (K(t) + 1)
  {
  }

  datatype Five = Five(a: Word, b: Word, c: Word, d: Word, e: Word)

  const START := Five(0x6745_2301, 0xEFCD_AB89, 0x98BA_DCFE, 0x1032_5476, 0xC3D2_E1F0)

  function Round(r: Five, t: nat, w: Word): (s: Five) {
    Five(Sum(Sum(Sum(Sum(Rotl(5, r.a), F(t, r.b, r.c, r.d)), r.e), w), K(t)), r.a, Rotl(30, r.b), r.c, r.d)
  }

  /** The five words after the first `t` rounds over a block. */
  function Rounds(block: seq<byte>, h: Five, t: nat): (r: Five)
    requires |block| == BLOCK && t <= 80
  {
    if t == 0 then h else Round(Rounds(block, h, t - 1), t - 1, W(block, t - 1))
  }

  lemma RoundNumbers(r: Five, t: nat, w: Word)
    ensures var s := Round(r, t, w);
            && s.a == ((r.a % 0x800_0000 * 32 + r.a / 0x800_0000) + F(t, r.b, r.c, r.d) + r.e + w + K(t))
                      % 0x1_0000_0000
            && s.b == r.a
            && s.c == r.b % 4 * 0x4000_0000 + r.b / 4
            && s.d == r.c
            && s.e == r.d
  {
    RotlNumbers(r.a);
    RotlNumbers(r.b);
    FiveSummed(Rotl(5, r.a), F(t, r.b, r.c, r.d), r.e, w, K(t));
  }

  lemma FiveSummed(p: Word, f: Word, e: Word, w: Word, k: Word)
    ensures Sum(Sum(Sum(Sum(p, f), e), w), k) == (p + f + e + w + k) % 0x1_0000_0000
  {
    var three := Sum(Sum(p, f), e);
    SumWraps(p, f, e);
    SumWraps(three, w, k);
    var q := (p + f + e) / 0x1_0000_0000;
    assert p + f + e == 0x1_0000_0000 * q + three;
    assert (three + w + k) % 0x1_0000_0000 == (0x1_0000_0000 * q + three + w + k) % 0x1_0000_0000;
  }

  /** Each round in numbers: the sum modulo 2^32 with the first register turned
      by five and word `t`, the second register turned by thirty, the others
      moved on. */
  lemma RoundsNumbers(block: seq<byte>, h: Five, t: nat)
    requires |block| == 64 && t < 80
    ensures var r, s := Rounds(block, h, t), Rounds(block, h, t + 1);
            && s.a == ((r.a % 0x800_0000 * 32 + r.a / 0x800_0000) + F(t, r.b, r.c, r.d) + r.e + W(block, t) + K(t))
                      % 0x1_0000_0000
            && s.b == r.a
            && s.c == r.b % 4 * 0x4000_0000 + r.b / 4
            && s.d == r.c
            && s.e == r.d
    ensures Rounds(block, h, 0) == h
  {
    RoundNumbers(Rounds(block, h, t), t, W(block, t));
  }

  function Plus(x: Five, y: Five): (z: Five) {
    Five(Sum(x.a, y.a), Sum(x.b, y.b), Sum(x.c, y.c), Sum(x.d, y.d), Sum(x.e, y.e))
  }

  function Compress(h: Five, block: seq<byte>): (r: Five)
    requires |block| == BLOCK
  {
    Plus(h, Rounds(block, h, 80))
  }

  function BlockAt(m: seq<byte>, n: nat): (block: seq<byte>)
    requires n < |m| / BLOCK
    ensures |block| == BLOCK
  {
    m[n * BLOCK..n * BLOCK + BLOCK]
  }

  /** The five words after the first `n` blocks. */
  function Chain(m: seq<byte>, n: nat): (h: Five)
    requires n <= |m| / BLOCK
  {
    if n == 0 then START else Compress(Chain(m, n - 1), BlockAt(m, n - 1))
  }

  function WordBytes(w: Word): (s: seq<byte>)
    ensures |s| == 4 && Value(s) == w
  {
    assert Pow256(4) == 0x1_0000_0000;
    ValueOfBigEndian(w, 4);
    BigEndian(w, 4)
  }

  function FiveBytes(h: Five): (s: seq<byte>)
    ensures |s| == 20
  {
    WordBytes(h.a) + WordBytes(h.b) + WordBytes(h.c) + WordBytes(h.d) + WordBytes(h.e)
  }

  lemma OneMoreByte(m: nat, d: byte, k: nat)
    ensures BigEndian(256 * m + d, k + 1) == BigEndian(m, k) + [d]
  {
  }

  /** A word comes out most significant byte first. */
  lemma WordInBytes(w: Word, a: byte, b: byte, c: byte, d: byte)
    requires w == 0x100_0000 * (a as int) + 0x1_0000 * (b as int) + 0x100 * (c as int) + d
    ensures WordBytes(w) == [a, b, c, d]
  {
    var two := 256 * (a as int) + b;
    OneMoreByte(0, a, 0);
    OneMoreByte(a, b, 1);
    OneMoreByte(two, c, 2);
    OneMoreByte(256 * two + c, d, 3);
  }

  /** The starting words as bytes, and with them the order in which words and
      bytes come out. */
  lemma StartBytes()
    ensures FiveBytes(START) ==
            [0x67, 0x45, 0x23, 0x01] + [0xEF, 0xCD, 0xAB, 0x89] + [0x98, 0xBA, 0xDC, 0xFE]
            + [0x10, 0x32, 0x54, 0x76] + [0xC3, 0xD2, 0xE1, 0xF0]
  {
    WordInBytes(START.a, 0x67, 0x45, 0x23, 0x01);
    WordInBytes(START.b, 0xEF, 0xCD, 0xAB, 0x89);
    WordInBytes(START.c, 0x98, 0xBA, 0xDC, 0xFE);
    WordInBytes(START.d, 0x10, 0x32, 0x54, 0x76);
    WordInBytes(START.e, 0xC3, 0xD2, 0xE1, 0xF0);
  }

  /** After the eighty rounds the registers are added modulo 2^32. */
  lemma CompressNumbers(g: Five, block: seq<byte>)
    requires |block| == 64
    ensures var r, h := Rounds(block, g, 80), Compress(g, block);
            && h.a == (g.a + r.a) % 0x1_0000_0000 && h.b == (g.b + r.b) % 0x1_0000_0000
            && h.c == (g.c + r.c) % 0x1_0000_0000 && h.d == (g.d + r.d) % 0x1_0000_0000
            && h.e == (g.e + r.e) % 0x1_0000_0000
  {
    var r := Rounds(block, g, 80);
    SumModulo(g.a, r.a);
    SumModulo(g.b, r.b);
    SumModulo(g.c, r.c);
    SumModulo(g.d, r.d);
    SumModulo(g.e, r.e);
  }

  /** The blocks are the message from front to back, each compressed into the
      words of those before it. */
  lemma ChainBlocks(m: seq<byte>, n: nat)
    requires 64 * n + 64 <= |m|
    ensures n + 1 <= |m| / BLOCK && Chain(m, n + 1) == Compress(Chain(m, n), m[64 * n..64 * n + 64])
  {
    assert BlockAt(m, n) == m[64 * n..64 * n + 64];
  }

  /** The padded message in bytes: the message, 0x80, zeros, and the length in
      bits, most significant byte first. */
  lemma PaddedBytes(data: seq<byte>)
    requires |data| < 0x2000_0000_0000_0000
    ensures var p, n := Padded(data), |data|;
            && p[..n] == data && p[n] == 0x80
            && (forall i :: n < i < |p| - 8 ==> p[i] == 0)
            && forall i :: |p| - 8 <= i < |p| ==> p[i] == 8 * n / Pow256(|p| - 1 - i) % 256
  {
    var p, field := Padded(data), BigEndian(8 * |data|, 8);
    FieldExact(|data|);
    assert p[|p| - 8..] == field;
    forall i | |p| - 8 <= i < |p|
      ensures p[i] == 8 * |data| / Pow256(|p| - 1 - i) % 256
    {
      BigEndianAt(8 * |data|, 8, i - (|p| - 8));
      assert p[i] == field[i - (|p| - 8)];
    }
  }

  function Hash(data: seq<byte>): (s: seq<byte>)
    ensures |s| == 20
  {
    FiveBytes(Chain(Padded(data), |Padded(data)| / BLOCK))
  }

  /** The digest is what all blocks of the padded message leave. */
  lemma HashIsChain(data: seq<byte>, n: nat)
    requires 64 * n == |Padded(data)|
    ensures n == |Padded(data)| / BLOCK && Hash(data) == FiveBytes(Chain(Padded(data), n))
  {
  }

  lemma SumsInjective(p: Word, e: Word, x: Word, w: Word, k: Word)
    requires Sum(Sum(Sum(p, e), w), k) == Sum(Sum(Sum(p, x), w), k)
    ensures e == x
  {
    SumInjective(Sum(Sum(p, e), w), Sum(Sum(p, x), w), k);
    SumInjective(Sum(p, e), Sum(p, x), w);
    SumOrder(0, p, e);
    SumOrder(0, p, x);
    SumInjective(e, x, p);
  }

  /** A round loses nothing: for a given word it is one-to-one on the registers. */
  lemma RoundInjective(r: Five, s: Five, t: nat, w: Word)
    ensures Round(r, t, w) == Round(s, t, w) <==> r == s
  {
    if Round(r, t, w) == Round(s, t, w) {
      RotlInjective(30, r.b, s.b);
      var p := Sum(Rotl(5, r.a), F(t, r.b, r.c, r.d));
      SumsInjective(p, r.e, s.e, w, K(t));
    }
  }

  /** So the eighty rounds over a block permute the states; only the sums at the
      end make the compression one-way. */
  lemma {:induction false} RoundsInjective(block: seq<byte>, g: Five, h: Five, t: nat)
    requires |block| == BLOCK && t <= 80
    ensures Rounds(block, g, t) == Rounds(block, h, t) <==> g == h
    decreases t
  {
    if t > 0 {
      RoundInjective(Rounds(block, g, t - 1), Rounds(block, h, t - 1), t - 1, W(block, t - 1));
      RoundsInjective(block, g, h, t - 1);
    }
  }

  // ------------------------------------------------ the digest as written

  /** The message buffer, filled byte by byte. */
  method Pad(data: seq<byte>) returns (msg: seq<byte>)
    ensures msg == Padded(data)
  {
    msg := data;
    var bitLen := BitLength(|data|);
    msg := msg + [0x80];
    ghost var z := 0;
    while |msg| % BLOCK != 56
      invariant 0 <= z <= Gap(|data|) && msg == data + [0x80] + Zeros(z)
      decreases Gap(|data|) - z
    {
      GapStep(|data|, z);
      msg := msg + [0];
      z := z + 1;
    }
    GapStep(|data|, z);
    msg := msg + BigEndian(bitLen, 8);
  }

  lemma GapStep(n: nat, z: nat)
    requires z <= Gap(n)
    ensures (n + 1 + z) % BLOCK == 56 <==> z == Gap(n)
  {
    if (n + 1 + z) % BLOCK == 56 {
      GapMinimal(n, z);
    }
  }

  /** The word array of one block: sixteen words read, the rest derived. */
  method FillSchedule(block: seq<byte>, w: array<Word>)
    requires |block| == BLOCK && w.Length == 80
    modifies w
    ensures forall t :: 0 <= t < 80 ==> w[t] == W(block, t)
  {
    for i := 0 to 16
      invariant forall t :: 0 <= t < i ==> w[t] == W(block, t)
    {
      w[i] := WordOf(block[4 * i..4 * i + 4]);
    }
    for i := 16 to 80
      invariant forall t :: 0 <= t < i ==> w[t] == W(block, t)
    {
      w[i] := Rotl(1, Parity4(w[i - 3], w[i - 8], w[i - 14], w[i - 16]));
    }
  }

  function FiveOf(h: seq<Word>): (r: Five)
    requires |h| == 5
  {
    Five(h[0], h[1], h[2], h[3], h[4])
  }

  method AddInto(h: array<Word>, a: Word, b: Word, c: Word, d: Word, e: Word)
    requires h.Length == 5
    modifies h
    ensures FiveOf(h[..]) == Plus(FiveOf(old(h[..])), Five(a, b, c, d, e))
  {
    h[0] := Sum(h[0], a);
    h[1] := Sum(h[1], b);
    h[2] := Sum(h[2], c);
    h[3] := Sum(h[3], d);
    h[4] := Sum(h[4], e);
  }

  /** The inner loop over the words of a block. */
  method RunRounds(w: array<Word>, ghost block: seq<byte>, a0: Word, b0: Word, c0: Word, d0: Word, e0: Word)
    returns (a: Word, b: Word, c: Word, d: Word, e: Word)
    requires |block| == BLOCK && w.Length == 80 && forall t :: 0 <= t < 80 ==> w[t] == W(block, t)
    ensures Five(a, b, c, d, e) == Rounds(block, Five(a0, b0, c0, d0, e0), 80)
  {
    a, b, c, d, e := a0, b0, c0, d0, e0;
    for i := 0 to 80
      invariant Five(a, b, c, d, e) == Rounds(block, Five(a0, b0, c0, d0, e0), i)
    {
      a, b, c, d, e := OneRound(i, w[i], a, b, c, d, e);
    }
  }

  /** One turn of the inner loop. */
  method OneRound(i: nat, wi: Word, a0: Word, b0: Word, c0: Word, d0: Word, e0: Word)
    returns (a: Word, b: Word, c: Word, d: Word, e: Word)
    ensures Five(a, b, c, d, e) == Round(Five(a0, b0, c0, d0, e0), i, wi)
  {
    a, b, c, d, e := a0, b0, c0, d0, e0;
    var temp := Sum(Sum(Sum(Sum(Rotl(5, a), F(i, b, c, d)), e), K(i)), wi);
    SumOrder(Sum(Sum(Rotl(5, a), F(i, b, c, d)), e), K(i), wi);
    e := d;
    d := c;
    c := Rotl(30, b);
    b := a;
    a := temp;
  }

  /** The word array and the five registers of one block. */
  method BlockRounds(block: seq<byte>, a0: Word, b0: Word, c0: Word, d0: Word, e0: Word)
    returns (a: Word, b: Word, c: Word, d: Word, e: Word)
    requires |block| == BLOCK
    ensures Five(a, b, c, d, e) == Rounds(block, Five(a0, b0, c0, d0, e0), 80)
  {
    var w := new Word[80];
    FillSchedule(block, w);
    a, b, c, d, e := RunRounds(w, block, a0, b0, c0, d0, e0);
  }

  /** The body of the block loop: eighty rounds, then the sums. */
  method CompressBlock(h: array<Word>, block: seq<byte>)
    requires h.Length == 5 && |block| == BLOCK
    modifies h
    ensures FiveOf(h[..]) == Compress(FiveOf(old(h[..])), block)
  {
    var a, b, c, d, e := BlockRounds(block, h[0], h[1], h[2], h[3], h[4]);
    AddInto(h, a, b, c, d, e);
  }

  /** The loop over the blocks. */
  method RunBlocks(msg: seq<byte>, h: array<Word>)
    requires h.Length == 5 && FiveOf(h[..]) == START && |msg| % BLOCK == 0
    modifies h
    ensures FiveOf(h[..]) == Chain(msg, |msg| / BLOCK)
  {
    for n := 0 to |msg| / BLOCK
      invariant FiveOf(h[..]) == Chain(msg, n)
    {
      CompressBlock(h, BlockAt(msg, n));
    }
  }

  /** The five words in order, each most significant byte first. */
  method WriteOut(h: array<Word>) returns (out: seq<byte>)
    requires h.Length == 5
    ensures out == FiveBytes(FiveOf(h[..]))
  {
    out := [];
    out := out + WordBytes(h[0]);
    out := out + WordBytes(h[1]);
    out := out + WordBytes(h[2]);
    out := out + WordBytes(h[3]);
    out := out + WordBytes(h[4]);
  }

  /** `digest`. */
  method Digest(data: seq<byte>) returns (out: seq<byte>)
    ensures out == Hash(data)
  {
    var msg := Pad(data);
    var h := new Word[5];
    h[0], h[1], h[2], h[3], h[4] := 0x6745_2301, 0xEFCD_AB89, 0x98BA_DCFE, 0x1032_5476, 0xC3D2_E1F0;
    RunBlocks(msg, h);
    out := WriteOut(h);
  }
}
