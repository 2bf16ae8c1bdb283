/** 32-bit words as FIPS 180-1 describes them: numbers below 2^32, with bitwise
    operations, sums that wrap, and circular shifts. */
module Words {

  function Pow2(n: nat): (p: nat)
    ensures p > 0
  {
    if n == 0 then 1 else 2 * Pow2(n - 1)
  }

  /** Rust's `u32`. */
  type Word = x: int | 0 <= x < 0x1_0000_0000

  lemma WordLimit()
    ensures Pow2(32) == 0x1_0000_0000
  {
    assert Pow2(8) == 0x100;
    PowersAdd(8, 8);
    PowersAdd(16, 16);
  }

  /** Bit `i` of a number, from the least significant. */
  function Bit(x: nat, i: nat): (b: nat)
    ensures b <= 1
    decreases i
  {
    if i == 0 then x % 2 else Bit(x / 2, i - 1)
  }

  datatype Gate = And | Or | Xor {
    function On(a: nat, b: nat): (c: nat)
      ensures c <= 1
    {
      match this
      case And => if a == 1 && b == 1 then 1 else 0
      case Or => if a == 1 || b == 1 then 1 else 0
      case Xor => if a == b then 0 else 1
    }
  }

  /** The gate applied to each of the low `n` bits. */
  function Bitwise(g: Gate, x: nat, y: nat, n: nat): (r: nat)
    ensures r < Pow2(n)
  {
    if n == 0 then 0 else 2 * Bitwise(g, x / 2, y / 2, n - 1) + g.On(x % 2, y % 2)
  }

  function Gated(g: Gate, x: Word, y: Word): (r: Word) {
    WordLimit();
    Bitwise(g, x, y, 32)
  }

  function Inverted(x: Word): (r: Word) {
    0xFFFF_FFFF - x
  }

  /** Rust's `wrapping_add`. */
  function Sum(x: Word, y: Word): (r: Word) {
    if x + y < 0x1_0000_0000 then x + y else x + y - 0x1_0000_0000
  }

  /** One place up; the top bit comes in below. */
  function RotlOne(x: Word): (r: Word) {
    x % 0x8000_0000 * 2 + x / 0x8000_0000
  }

  /** Rust's `rotate_left`: the circular left shift by `n`. */
  function Rotl(n: nat, x: Word): (r: Word) {
    if n == 0 then x else RotlOne(Rotl(n - 1, x))
  }

  // ------------------------------------------------- what the operations mean

  lemma {:induction false} PowersAdd(m: nat, n: nat)
    ensures Pow2(m) * Pow2(n) == Pow2(m + n)
    decreases m
  {
    if m > 0 {
      PowersAdd(m - 1, n);
      assert Pow2(m) * Pow2(n) == 2 * (Pow2(m - 1) * Pow2(n));
    }
  }

  /** A bitwise operation acts on each bit by itself. */
  lemma {:induction false} BitwiseBit(g: Gate, x: nat, y: nat, n: nat, i: nat)
    requires i < n
    ensures Bit(Bitwise(g, x, y, n), i) == g.On(Bit(x, i), Bit(y, i))
    decreases n
  {
    var rest := Bitwise(g, x / 2, y / 2, n - 1);
    assert Bitwise(g, x, y, n) / 2 == rest && Bitwise(g, x, y, n) % 2 == g.On(x % 2, y % 2);
    if i > 0 {
      BitwiseBit(g, x / 2, y / 2, n - 1, i - 1);
    }
  }

  lemma GatedBit(g: Gate, x: Word, y: Word, i: nat)
    requires i < 32
    ensures Bit(Gated(g, x, y), i) == g.On(Bit(x, i), Bit(y, i))
  {
    BitwiseBit(g, x, y, 32, i);
  }

  lemma {:induction false} InvertedBits(x: nat, n: nat, i: nat)
    requires i < n && x < Pow2(n)
    ensures Bit(Pow2(n) - 1 - x, i) == 1 - Bit(x, i)
    decreases n
  {
    var y := Pow2(n) - 1 - x;
    assert y / 2 == Pow2(n - 1) - 1 - x / 2 && y % 2 == 1 - x % 2;
    if i > 0 {
      InvertedBits(x / 2, n - 1, i - 1);
    }
  }

  /** Two numbers side by side. */
  lemma {:induction false} BitJoin(h: nat, l: nat, n: nat, j: nat)
    requires l < Pow2(n)
    ensures Bit(h * Pow2(n) + l, j) == if j < n then Bit(l, j) else Bit(h, j - n)
    decreases n
  {
    if n == 0 {
      assert h * Pow2(0) == h;
    } else {
      var x := h * Pow2(n) + l;
      assert h * Pow2(n) == 2 * (h * Pow2(n - 1));
      assert x / 2 == h * Pow2(n - 1) + l / 2 && x % 2 == l % 2;
      if j > 0 {
        BitJoin(h, l / 2, n - 1, j - 1);
      }
    }
  }

  /** The two parts of a word change places. */
  lemma PartsBit(h: nat, l: nat, i: nat)
    requires l < 0x8000_0000 && h < 2 && i < 32
    ensures Bit(l * 2 + h, if i == 31 then 0 else i + 1) == Bit(h * 0x8000_0000 + l, i)
  {
    HalfLimit();
    BitJoin(h, l, 31, i);
    BitJoin(l, h, 1, if i == 31 then 0 else i + 1);
  }

  lemma RotlOneBit(x: Word, i: nat)
    requires i < 32
    ensures Bit(RotlOne(x), if i == 31 then 0 else i + 1) == Bit(x, i)
  {
    PartsBit(x / 0x8000_0000, x % 0x8000_0000, i);
  }

  lemma NextPlace(i: nat, n: nat)
    ensures (i + n + 1) % 32 == if (i + n) % 32 == 31 then 0 else (i + n) % 32 + 1
  {
  }

  lemma HalfLimit()
    ensures Pow2(31) == 0x8000_0000 && Pow2(1) == 2
  {
    WordLimit();
  }

  /** The circular shift moves bit `i` to place `i + n`, around the end. */
  lemma {:induction false} RotlBit(n: nat, x: Word, i: nat)
    requires i < 32
    ensures Bit(Rotl(n, x), (i + n) % 32) == Bit(x, i)
    decreases n
  {
    if n > 0 {
      RotlBit(n - 1, x, i);
      NextPlace(i, n - 1);
      RotlOneBit(Rotl(n - 1, x), (i + (n - 1)) % 32);
    }
  }

  lemma {:induction false} BitsDetermine(x: nat, y: nat, n: nat)
    requires x < Pow2(n) && y < Pow2(n)
    requires forall i: nat :: i < n ==> Bit(x, i) == Bit(y, i)
    ensures x == y
  {
    if n > 0 {
      assert Bit(x, 0) == Bit(y, 0);
      forall i: nat | i < n - 1
        ensures Bit(x / 2, i) == Bit(y / 2, i)
      {
        assert Bit(x, i + 1) == Bit(y, i + 1);
      }
      BitsDetermine(x / 2, y / 2, n - 1);
    }
  }

  /** The bits of `x` are those of `l`, `n` of them, and above them those of `h`. */
  ghost predicate Joined(x: nat, h: nat, l: nat, n: nat) {
    forall j: nat :: Bit(x, j) == if j < n then Bit(l, j) else Bit(h, j - n)
  }

  lemma JoinedBits(x: nat, h: nat, l: nat, n: nat, p: nat)
    requires p == Pow2(n) && l < p && x == h * p + l
    ensures Joined(x, h, l, n)
  {
    forall j: nat
      ensures Bit(x, j) == if j < n then Bit(l, j) else Bit(h, j - n)
    {
      BitJoin(h, l, n, j);
    }
  }

  lemma TurnedPlace(n: nat, j: nat) returns (i: nat)
    requires n <= 32 && j < 32
    ensures i < 32 && (i + n) % 32 == j && i == if j < n then j + (32 - n) else j - n
  {
    i := if j < n then j + (32 - n) else j - n;
  }

  /** A circular shift by `n` exchanges the upper `n` bits and the others. */
  lemma RotlParts(n: nat, x: Word, y: Word, h: nat, l: nat)
    requires n <= 32 && Joined(x, h, l, 32 - n) && Joined(y, l, h, n)
    ensures Rotl(n, x) == y
  {
    forall j: nat | j < 32
      ensures Bit(Rotl(n, x), j) == Bit(y, j)
    {
      var i := TurnedPlace(n, j);
      RotlBit(n, x, i);
    }
    WordLimit();
    BitsDetermine(Rotl(n, x), y, 32);
  }

  lemma SomePowers()
    ensures Pow2(1) == 2 && Pow2(2) == 4 && Pow2(5) == 32
    ensures Pow2(27) == 0x800_0000 && Pow2(30) == 0x4000_0000 && Pow2(31) == 0x8000_0000
  {
    assert Pow2(3) == 8 && Pow2(6) == 64 && Pow2(7) == 128 && Pow2(8) == 256;
    PowersAdd(8, 8);
    PowersAdd(8, 16);
    PowersAdd(3, 24);
    PowersAdd(6, 24);
    PowersAdd(7, 24);
  }

  /** The three shifts of the hash, in numbers. */
  lemma RotlNumbers(x: Word)
    ensures Rotl(1, x) == x % 0x8000_0000 * 2 + x / 0x8000_0000
    ensures Rotl(5, x) == x % 0x800_0000 * 32 + x / 0x800_0000
    ensures Rotl(30, x) == x % 4 * 0x4000_0000 + x / 4
  {
    SomePowers();
    JoinedBits(x, x / 0x8000_0000, x % 0x8000_0000, 31, 0x8000_0000);
    JoinedBits(x % 0x8000_0000 * 2 + x / 0x8000_0000, x % 0x8000_0000, x / 0x8000_0000, 1, 2);
    RotlParts(1, x, x % 0x8000_0000 * 2 + x / 0x8000_0000, x / 0x8000_0000, x % 0x8000_0000);
    JoinedBits(x, x / 0x800_0000, x % 0x800_0000, 27, 0x800_0000);
    JoinedBits(x % 0x800_0000 * 32 + x / 0x800_0000, x % 0x800_0000, x / 0x800_0000, 5, 32);
    RotlParts(5, x, x % 0x800_0000 * 32 + x / 0x800_0000, x / 0x800_0000, x % 0x800_0000);
    JoinedBits(x, x / 4, x % 4, 2, 4);
    JoinedBits(x % 4 * 0x4000_0000 + x / 4, x % 4, x / 4, 30, 0x4000_0000);
    RotlParts(30, x, x % 4 * 0x4000_0000 + x / 4, x / 4, x % 4);
  }

  /** Wrapping twice is wrapping once, so sums may be taken in any order. */
  lemma SumWraps(x: Word, y: Word, z: Word)
    ensures Sum(Sum(x, y), z) == (x + y + z) % 0x1_0000_0000
  {
    var s := x + y;
    if s >= 0x1_0000_0000 {
      assert Sum(x, y) == s - 0x1_0000_0000;
    }
  }

  lemma SumOrder(x: Word, y: Word, z: Word)
    ensures Sum(Sum(x, y), z) == Sum(Sum(x, z), y)
  {
    SumWraps(x, y, z);
    SumWraps(x, z, y);
  }

  lemma InvertedBit(x: Word, i: nat)
    requires i < 32
    ensures Bit(Inverted(x), i) == 1 - Bit(x, i)
  {
    WordLimit();
    InvertedBits(x, 32, i);
  }

  /** Nothing is lost in a circular shift. */
  lemma {:induction false} RotlInjective(n: nat, x: Word, y: Word)
    ensures Rotl(n, x) == Rotl(n, y) <==> x == y
    decreases n
  {
    if n > 0 {
      RotlInjective(n - 1, x, y);
      RotlOneInjective(Rotl(n - 1, x), Rotl(n - 1, y));
    }
  }

  lemma RotlOneInjective(x: Word, y: Word)
    ensures RotlOne(x) == RotlOne(y) <==> x == y
  {
  }

  lemma SumModulo(x: Word, y: Word)
    ensures Sum(x, y) == (x + y) % 0x1_0000_0000
  {
  }

  lemma SumInjective(x: Word, y: Word, z: Word)
    requires Sum(x, z) == Sum(y, z)
    ensures x == y
  {
    assert (x + z) % 0x1_0000_0000 == if x + z < 0x1_0000_0000 then x + z else x + z - 0x1_0000_0000;
    assert (y + z) % 0x1_0000_0000 == if y + z < 0x1_0000_0000 then y + z else y + z - 0x1_0000_0000;
  }
}
