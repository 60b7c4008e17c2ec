/** CRC values of two messages, computed with sixteen booleans: the check value
    of CRC-16/CCITT-FALSE and the CRC of a ping. */
module CrcCheck {
  import opened Bytes
  import opened Crc16
  import opened CrcOrder
  import opened CrcCodeword

  /** Eight steps at once. */
  function Fused(w: Word): Word {
    var x7, x6, x5, x4 := w.b15, w.b14, w.b13, w.b12;
    var x3, x2, x1, x0 := w.b11 != x7, w.b10 != x6, w.b9 != x5, w.b8 != x4;
    Word(w.b7 != x3, w.b6 != x2, w.b5 != x1, (w.b4 != x0) != x7, w.b3 != x6, w.b2 != x5, w.b1 != x4, w.b0 != x3,
         x2 != x7, x1 != x6, x0 != x5, x4, x3, x2, x1, x0)
  }

  lemma FusedIsEight(w: Word)
    ensures Eight(w) == Fused(w)
  {}

  /** The register after a byte of the message. */
  function Taken(w: Word, byteWord: Word): Word {
    Fused(XorWord(w, byteWord))
  }

  lemma OneByte(r: Register, w: Word, m: seq<byte>, k: nat) returns (s: Register)
    requires Shows(r, w) && k < |m|
    ensures Shows(s, Taken(w, WordOf(ByteBits(m[k]))))
    ensures Feed(r, Bits(m[k..])) == Feed(s, Bits(m[k + 1..]))
  {
    hide Shows, Fused, XorWord, WordOf, ByteBits, Eight, Pack, Steps, Feed, Xor;
    var d := ByteBits(m[k]);
    s := Feed(r, d);
    assert m[k..][0] == m[k] && m[k..][1..] == m[k + 1..];
    FeedAppend(r, d, Bits(m[k + 1..]));
    FeedIsPack(r, d);
    PackShows(d);
    XorShows(r, w, Pack(d), WordOf(d));
    EightShows(Xor(r, Pack(d)), XorWord(w, WordOf(d)));
    FusedIsEight(XorWord(w, WordOf(d)));
  }

  lemma ThreeBytes(r: Register, w: Word, m: seq<byte>, k: nat, a: Word, b: Word, c: Word) returns (s: Register)
    requires Shows(r, w) && k + 3 <= |m|
    requires Taken(w, WordOf(ByteBits(m[k]))) == a && Taken(a, WordOf(ByteBits(m[k + 1]))) == b
    requires Taken(b, WordOf(ByteBits(m[k + 2]))) == c
    ensures Shows(s, c) && Feed(r, Bits(m[k..])) == Feed(s, Bits(m[k + 3..]))
  {
    hide Shows, Taken, WordOf, ByteBits, Bits, Feed;
    s := OneByte(r, w, m, k);
    s := OneByte(s, a, m, k + 1);
    s := OneByte(s, b, m, k + 2);
  }

  function Weight(bit: bool, n: nat): nat { if bit then n else 0 }

  lemma BitBelow(v: nat, n: nat, bit: bool)
    ensures LowBits(2 * v + Weight(bit, 1), n + 1) == LowBits(v, n) + [bit]
  {
    assert (2 * v + 1) / 2 == v && 2 * v / 2 == v;
  }

  lemma FourBelow(v: nat, n: nat, d: seq<bool>)
    requires |d| == 4
    ensures LowBits(16 * v + Weight(d[0], 8) + Weight(d[1], 4) + Weight(d[2], 2) + Weight(d[3], 1), n + 4) ==
            LowBits(v, n) + d
  {
    hide LowBits;
    var a := 2 * v + Weight(d[0], 1);
    var b := 2 * a + Weight(d[1], 1);
    var c := 2 * b + Weight(d[2], 1);
    BitBelow(v, n, d[0]);
    BitBelow(a, n + 1, d[1]);
    BitBelow(b, n + 2, d[2]);
    BitBelow(c, n + 3, d[3]);
  }

  function Nibble(a: bool, b: bool, c: bool, d: bool): nat {
    Weight(a, 8) + Weight(b, 4) + Weight(c, 2) + Weight(d, 1)
  }

  lemma ByteFrom(b: byte, d: seq<bool>)
    requires |d| == 8 && b == 16 * Nibble(d[0], d[1], d[2], d[3]) + Nibble(d[4], d[5], d[6], d[7])
    ensures ByteBits(b) == d
  {
    hide LowBits, Weight;
    FourBelow(0, 0, d[..4]);
    FourBelow(Nibble(d[0], d[1], d[2], d[3]), 4, d[4..]);
    assert d == LowBits(0, 0) + d[..4] + d[4..];
  }

  lemma DigitBits()
    ensures ByteBits(0x31) == [false, false, true, true, false, false, false, true]
    ensures ByteBits(0x32) == [false, false, true, true, false, false, true, false]
    ensures ByteBits(0x33) == [false, false, true, true, false, false, true, true]
    ensures ByteBits(0x34) == [false, false, true, true, false, true, false, false]
    ensures ByteBits(0x35) == [false, false, true, true, false, true, false, true]
    ensures ByteBits(0x36) == [false, false, true, true, false, true, true, false]
    ensures ByteBits(0x37) == [false, false, true, true, false, true, true, true]
    ensures ByteBits(0x38) == [false, false, true, true, true, false, false, false]
    ensures ByteBits(0x39) == [false, false, true, true, true, false, false, true]
    ensures ByteBits(0x29) == [false, false, true, false, true, false, false, true]
    ensures ByteBits(0xB1) == [true, false, true, true, false, false, false, true]
  {
    hide ByteBits;
    ByteFrom(0x31, [false, false, true, true, false, false, false, true]);
    ByteFrom(0x32, [false, false, true, true, false, false, true, false]);
    ByteFrom(0x33, [false, false, true, true, false, false, true, true]);
    ByteFrom(0x34, [false, false, true, true, false, true, false, false]);
    ByteFrom(0x35, [false, false, true, true, false, true, false, true]);
    ByteFrom(0x36, [false, false, true, true, false, true, true, false]);
    ByteFrom(0x37, [false, false, true, true, false, true, true, true]);
    ByteFrom(0x38, [false, false, true, true, true, false, false, false]);
    ByteFrom(0x39, [false, false, true, true, true, false, false, true]);
    ByteFrom(0x29, [false, false, true, false, true, false, false, true]);
    ByteFrom(0xB1, [true, false, true, true, false, false, false, true]);
  }

  function R0(): Word { // 0xFFFF
    Word(true, true, true, true, true, true, true, true, true, true, true, true, true, true, true, true)
  }

  function R1(): Word { // 0xC782
    Word(true, true, false, false, false, true, true, true, true, false, false, false, false, false, true, false)
  }

  function R2(): Word { // 0x3DBA
    Word(false, false, true, true, true, true, false, true, true, false, true, true, true, false, true, false)
  }

  function R3(): Word { // 0x5BCE
    Word(false, true, false, true, true, false, true, true, true, true, false, false, true, true, true, false)
  }

  function R4(): Word { // 0x5349
    Word(false, true, false, true, false, false, true, true, false, true, false, false, true, false, false, true)
  }

  function R5(): Word { // 0x4560
    Word(false, true, false, false, false, true, false, true, false, true, true, false, false, false, false, false)
  }

  function R6(): Word { // 0x2EF4
    Word(false, false, true, false, true, true, true, false, true, true, true, true, false, true, false, false)
  }

  function R7(): Word { // 0x7718
    Word(false, true, true, true, false, true, true, true, false, false, false, true, true, false, false, false)
  }

  function R8(): Word { // 0xA12B
    Word(true, false, true, false, false, false, false, true, false, false, true, false, true, false, true, true)
  }

  function R9(): Word { // 0x29B1
    Word(false, false, true, false, true, false, false, true, true, false, true, true, false, false, false, true)
  }

  lemma RoundsByBits()
    ensures Taken(R0(), WordOf([false, false, true, true, false, false, false, true])) == R1()
    ensures Taken(R1(), WordOf([false, false, true, true, false, false, true, false])) == R2()
    ensures Taken(R2(), WordOf([false, false, true, true, false, false, true, true])) == R3()
    ensures Taken(R3(), WordOf([false, false, true, true, false, true, false, false])) == R4()
    ensures Taken(R4(), WordOf([false, false, true, true, false, true, false, true])) == R5()
    ensures Taken(R5(), WordOf([false, false, true, true, false, true, true, false])) == R6()
    ensures Taken(R6(), WordOf([false, false, true, true, false, true, true, true])) == R7()
    ensures Taken(R7(), WordOf([false, false, true, true, true, false, false, false])) == R8()
    ensures Taken(R8(), WordOf([false, false, true, true, true, false, false, true])) == R9()
  {}

  lemma Rounds()
    ensures Taken(R0(), WordOf(ByteBits(0x31))) == R1()
    ensures Taken(R1(), WordOf(ByteBits(0x32))) == R2()
    ensures Taken(R2(), WordOf(ByteBits(0x33))) == R3()
    ensures Taken(R3(), WordOf(ByteBits(0x34))) == R4()
    ensures Taken(R4(), WordOf(ByteBits(0x35))) == R5()
    ensures Taken(R5(), WordOf(ByteBits(0x36))) == R6()
    ensures Taken(R6(), WordOf(ByteBits(0x37))) == R7()
    ensures Taken(R7(), WordOf(ByteBits(0x38))) == R8()
    ensures Taken(R8(), WordOf(ByteBits(0x39))) == R9()
  {
    hide ByteBits, WordOf, Taken, R0, R1, R2, R3, R4, R5, R6, R7, R8, R9;
    DigitBits();
    RoundsByBits();
  }

  lemma LastRound(r: Register)
    requires Shows(r, R9())
    ensures r == RegisterOf(0x29B1)
  {
    hide ByteBits, RegisterOf;
    DigitBits();
    RegisterBytes(0x29, 0xB1);
    ShowsOnce(r, RegisterOf(0x29B1), R9());
  }

  /** The nine ASCII digits leave the serial register as 0x29B1. */
  lemma CheckRegister(m: seq<byte>)
    requires m == [0x31, 0x32, 0x33, 0x34, 0x35, 0x36, 0x37, 0x38, 0x39]
    ensures Feed(AllSet(), Bits(m)) == RegisterOf(0x29B1)
  {
    hide Taken, WordOf, ByteBits, Bits, Feed, AllSet, RegisterOf, R0, R1, R2, R3, R4, R5, R6, R7, R8, R9, Shows;
    Rounds();
    StartShows();
    assert m[0..] == m && m[9..] == [];
    var third := ThreeBytes(AllSet(), R0(), m, 0, R1(), R2(), R3());
    var sixth := ThreeBytes(third, R3(), m, 3, R4(), R5(), R6());
    var ninth := ThreeBytes(sixth, R6(), m, 6, R7(), R8(), R9());
    NoMoreBits(ninth);
    LastRound(ninth);
  }

  lemma StartShows()
    ensures Shows(AllSet(), R0())
  {}

  lemma NoMoreBits(r: Register)
    ensures Feed(r, Bits([])) == r
  {}

  /** The check value: the CRC of the nine ASCII digits is 0x29B1. */
  lemma CheckValue(m: seq<byte>)
    requires m == [0x31, 0x32, 0x33, 0x34, 0x35, 0x36, 0x37, 0x38, 0x39]
    ensures Crc(m) == 0x29B1
  {
    hide Crc, AllSet, Feed, Bits, LowBits, Pow2;
    Pow2Values();
    CrcBound(m);
    CrcIsSerial(m);
    CheckRegister(m);
    LowBitsInjective(Crc(m), 0x29B1, CRC_WIDTH);
  }

  // ----- The frame of a ping: command 0xFF, length 0 -----

  function P1(): Word { // 0xFF00
    Word(true, true, true, true, true, true, true, true, false, false, false, false, false, false, false, false)
  }

  function P2(): Word { // 0x1EF0
    Word(false, false, false, true, true, true, true, false, true, true, true, true, false, false, false, false)
  }

  function P3(): Word { // 0x03FF
    Word(false, false, false, false, false, false, true, true, true, true, true, true, true, true, true, true)
  }

  lemma PingBits()
    ensures ByteBits(0x00) == [false, false, false, false, false, false, false, false]
    ensures ByteBits(0x03) == [false, false, false, false, false, false, true, true]
    ensures ByteBits(0xFF) == [true, true, true, true, true, true, true, true]
  {
    hide ByteBits;
    ByteFrom(0x00, [false, false, false, false, false, false, false, false]);
    ByteFrom(0x03, [false, false, false, false, false, false, true, true]);
    ByteFrom(0xFF, [true, true, true, true, true, true, true, true]);
  }

  lemma PingRounds()
    ensures Taken(R0(), WordOf(ByteBits(0xFF))) == P1()
    ensures Taken(P1(), WordOf(ByteBits(0x00))) == P2() && Taken(P2(), WordOf(ByteBits(0x00))) == P3()
  {
    hide ByteBits;
    PingBits();
  }

  lemma PingRegister(r: Register)
    requires Shows(r, P3())
    ensures r == RegisterOf(0x03FF)
  {
    hide ByteBits, RegisterOf;
    PingBits();
    RegisterBytes(0x03, 0xFF);
    ShowsOnce(r, RegisterOf(0x03FF), P3());
  }

  lemma PingCrc(m: seq<byte>)
    requires m == [0xFF, 0x00, 0x00]
    ensures Crc(m) == 0x03FF
  {
    hide Crc, AllSet, Feed, Bits, LowBits, Pow2, Taken, WordOf, ByteBits, R0, P1, P2, P3, Shows;
    Pow2Values();
    CrcBound(m);
    CrcIsSerial(m);
    PingRounds();
    StartShows();
    assert m[0..] == m && m[3..] == [];
    var r := ThreeBytes(AllSet(), R0(), m, 0, P1(), P2(), P3());
    NoMoreBits(r);
    PingRegister(r);
    LowBitsInjective(Crc(m), 0x03FF, CRC_WIDTH);
  }
}
