/** Bytes, big-endian integers and the bitwise AND used by the packet code. */
module Bytes {

  type Byte = x: int | 0 <= x < 256

  datatype Option<+T> = None | Some(value: T)

  function U16(s: seq<Byte>, i: nat): (n: nat)
    requires i + 2 <= |s|
    ensures n < 0x1_0000
  {
    var high: nat := s[i];
    256 * high + s[i + 1]
  }

  function U32(s: seq<Byte>, i: nat): (n: nat)
    requires i + 4 <= |s|
    ensures n < 0x1_0000_0000
  {
    U16(s, i) * 0x1_0000 + U16(s, i + 2)
  }

  function U64(s: seq<Byte>, i: nat): (n: nat)
    requires i + 8 <= |s|
    ensures n < 0x1_0000_0000_0000_0000
  {
    U32(s, i) * 0x1_0000_0000 + U32(s, i + 4)
  }

  function Put16(n: nat): (s: seq<Byte>)
    requires n < 0x1_0000
    ensures |s| == 2 && U16(s, 0) == n
  {
    [n / 256, n % 256]
  }

  function Put32(n: nat): (s: seq<Byte>)
    requires n < 0x1_0000_0000
    ensures |s| == 4 && U32(s, 0) == n
  {
    var s := Put16(n / 0x1_0000) + Put16(n % 0x1_0000);
    assert U16(s, 0) == U16(Put16(n / 0x1_0000), 0) && U16(s, 2) == U16(Put16(n % 0x1_0000), 0);
    s
  }

  function Put64(n: nat): (s: seq<Byte>)
    requires n < 0x1_0000_0000_0000_0000
    ensures |s| == 8 && U64(s, 0) == n
  {
    var s := Put32(n / 0x1_0000_0000) + Put32(n % 0x1_0000_0000);
    assert U32(s, 0) == U32(Put32(n / 0x1_0000_0000), 0) && U32(s, 4) == U32(Put32(n % 0x1_0000_0000), 0);
    s
  }

  /** Big-endian readers are injective on the bytes they read. */
  lemma SameU16(s: seq<Byte>, i: nat, t: seq<Byte>, j: nat)
    requires i + 2 <= |s| && j + 2 <= |t|
    ensures U16(s, i) == U16(t, j) <==> s[i..i + 2] == t[j..j + 2]
  {
    assert s[i..i + 2] == [s[i], s[i + 1]] && t[j..j + 2] == [t[j], t[j + 1]];
  }

  lemma SameU32(s: seq<Byte>, i: nat, t: seq<Byte>, j: nat)
    requires i + 4 <= |s| && j + 4 <= |t|
    ensures U32(s, i) == U32(t, j) <==> s[i..i + 4] == t[j..j + 4]
  {
    SameU16(s, i, t, j);
    SameU16(s, i + 2, t, j + 2);
    assert s[i..i + 4] == s[i..i + 2] + s[i + 2..i + 4];
    assert t[j..j + 4] == t[j..j + 2] + t[j + 2..j + 4];
  }

  lemma SameU64(s: seq<Byte>, i: nat, t: seq<Byte>, j: nat)
    requires i + 8 <= |s| && j + 8 <= |t|
    ensures U64(s, i) == U64(t, j) <==> s[i..i + 8] == t[j..j + 8]
  {
    SameU32(s, i, t, j);
    SameU32(s, i + 4, t, j + 4);
    assert s[i..i + 8] == s[i..i + 4] + s[i + 4..i + 8];
    assert t[j..j + 8] == t[j..j + 4] + t[j + 4..j + 8];
  }

  lemma Read16(s: seq<Byte>, i: nat, n: nat)
    requires n < 0x1_0000 && i + 2 <= |s| && s[i..i + 2] == Put16(n)
    ensures U16(s, i) == n
  {
    assert s[i] == s[i..i + 2][0] && s[i + 1] == s[i..i + 2][1];
  }

  lemma Read32(s: seq<Byte>, i: nat, n: nat)
    requires n < 0x1_0000_0000 && i + 4 <= |s| && s[i..i + 4] == Put32(n)
    ensures U32(s, i) == n
  {
    SameU32(s, i, Put32(n), 0);
    assert Put32(n)[0..4] == Put32(n);
  }

  lemma Slices(data: seq<Byte>, lo: nat, hi: nat, i: nat, j: nat)
    requires lo + i <= lo + j <= hi <= |data|
    ensures data[lo..hi][i..j] == data[lo + i..lo + j]
  {
    var s, t := data[lo..hi][i..j], data[lo + i..lo + j];
    assert forall k :: 0 <= k < j - i ==> s[k] == data[lo..hi][i + k] == data[lo + i + k] == t[k];
  }

  /** Bitwise AND of two naturals, bit by bit. */
  function BitAnd(a: nat, b: nat): nat {
    if a == 0 || b == 0 then 0 else (if a % 2 == 1 && b % 2 == 1 then 1 else 0) + 2 * BitAnd(a / 2, b / 2)
  }

  lemma AndBit(a: nat, m: nat)
    ensures BitAnd(a, 2 * m) == 2 * BitAnd(a / 2, m)
    ensures BitAnd(a, 2 * m + 1) == a % 2 + 2 * BitAnd(a / 2, m)
  {
  }

  lemma AndPair(a: nat, m: nat)
    ensures BitAnd(a, 4 * m) == 4 * BitAnd(a / 4, m)
    ensures BitAnd(a, 4 * m + 3) == a % 4 + 4 * BitAnd(a / 4, m)
  {
    var h := a / 2;
    AndBit(a, 2 * m);
    AndBit(h, m);
    AndBit(a, 2 * m + 1);
    assert h / 2 == a / 4;
  }

  lemma AndNibble(a: nat, m: nat)
    ensures BitAnd(a, 16 * m) == 16 * BitAnd(a / 16, m)
    ensures BitAnd(a, 16 * m + 15) == a % 16 + 16 * BitAnd(a / 16, m)
  {
    var q := a / 4;
    AndPair(a, 4 * m);
    AndPair(q, m);
    AndPair(a, 4 * m + 3);
    assert q / 4 == a / 16;
  }

  lemma AndByteMask(a: nat, m: nat)
    ensures BitAnd(a, 256 * m) == 256 * BitAnd(a / 256, m)
    ensures BitAnd(a, 256 * m + 255) == a % 256 + 256 * BitAnd(a / 256, m)
  {
    var q := a / 16;
    AndNibble(a, 16 * m);
    AndNibble(q, m);
    AndNibble(a, 16 * m + 15);
    assert q / 16 == a / 256;
  }

  /** The masks that occur in the packet and name code, as arithmetic. */
  lemma And0F(a: nat)
    ensures BitAnd(a, 0x0f) == a % 16
  {
    AndNibble(a, 0);
  }

  lemma And3F(a: nat)
    ensures BitAnd(a, 0x3f) == a % 64
  {
    AndNibble(a, 3);
    LowTwo(a / 16);
    SixBits(a, a / 16 / 4, a / 16 % 4, a % 16);
  }

  lemma SixBits(a: nat, h: nat, m: nat, r: nat)
    requires a == 16 * (4 * h + m) + r && m < 4 && r < 16
    ensures a % 64 == 16 * m + r
  {
  }

  lemma And3FFF(a: nat)
    ensures BitAnd(a, 0x3fff) == a % 16384
  {
    AndByteMask(a, 63);
    And3F(a / 256);
    ModSplit(a, a / 256 / 64, a / 256 % 64, a % 256);
  }

  lemma ModSplit(a: nat, s: nat, t: nat, r: nat)
    requires a == 16384 * s + 256 * t + r && t < 64 && r < 256
    ensures a % 16384 == 256 * t + r
  {
  }

  lemma AndF0(a: nat)
    ensures BitAnd(a, 0xf0) == a / 16 % 16 * 16
  {
    AndNibble(a, 15);
    And0F(a / 16);
  }

  lemma AndC0(a: nat)
    ensures BitAnd(a, 0xc0) == a / 64 % 4 * 64
  {
    AndNibble(a, 12);
    AndPair(a / 16, 3);
    LowTwo(a / 64);
    assert a / 16 / 4 == a / 64;
  }

  lemma And80(a: nat)
    ensures BitAnd(a, 0x80) == a / 128 % 2 * 128
  {
    AndNibble(a, 8);
    AndPair(a / 16, 2);
    AndBit(a / 64, 1);
    LowTwo(a / 128);
    assert a / 16 / 4 == a / 64 && a / 64 / 2 == a / 128;
  }

  lemma And8000(a: nat)
    ensures BitAnd(a, 0x8000) == a / 32768 % 2 * 32768
  {
    AndByteMask(a, 128);
    And80(a / 256);
    assert a / 256 / 128 == a / 32768;
  }

  lemma TopBit(n: nat)
    requires n < 0x1_0000
    ensures BitAnd(n, 0x8000) != 0 <==> 0x8000 <= n
  {
    And8000(n);
    Halves(n);
  }

  lemma Halves(n: nat)
    requires n < 0x1_0000
    ensures n / 32768 % 2 == if 0x8000 <= n then 1 else 0
  {
  }

  lemma LowTwo(a: nat)
    ensures BitAnd(a, 1) == a % 2
    ensures BitAnd(a, 3) == a % 4
  {
    AndBit(a, 0);
    AndPair(a, 0);
  }
}
