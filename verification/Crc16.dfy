/** CRC-16/CCITT-FALSE as the modem drivers compute it, and what it detects.

    `Crc16Ccitt` is the nested byte/bit loop.  The theorems look at the message
    as a string of bits: the register is linear over exclusive or, every bit
    step is injective and keeps parity, and together these give the burst and
    odd-error guarantees of the polynomial. */
module Crc16 {
  import opened Bytes

  const INITIAL := 0xFFFF
  const BYTE_WIDTH: nat := 8
  const CRC_WIDTH: nat := 16

  /** One iteration of the inner loop. */
  function BitStep(crc: nat): (r: nat)
    ensures r < 0x1_0000
  {
    (if crc / 0x8000 % 2 == 1 then BitXor(crc * 2, 0x1021) else crc * 2) % 0x1_0000
  }

  /** `n` iterations of the inner loop. */
  function BitSteps(crc: nat, n: nat): nat
    decreases n
  {
    if n == 0 then crc else BitSteps(BitStep(crc), n - 1)
  }

  /** `crc ^= byte << 8` */
  function Mix(crc: nat, b: byte): nat {
    BitXor(crc, 256 * (b as int))
  }

  /** The register after `data`, starting from `crc`. */
  function CrcFrom(crc: nat, data: seq<byte>): nat
    decreases |data|
  {
    if data == [] then crc
    else CrcFrom(BitSteps(Mix(crc, data[0]), BYTE_WIDTH), data[1..])
  }

  function Crc(data: seq<byte>): nat {
    CrcFrom(INITIAL, data)
  }

  /** The inner loop; the driver runs it for 8 bits. */
  method ShiftOut(mixed: nat, bits: nat) returns (crc: nat)
    ensures crc == BitSteps(mixed, bits)
  {
    crc := mixed;
    for k := 0 to bits
      invariant BitSteps(crc, bits - k) == BitSteps(mixed, bits)
    {
      if crc / 0x8000 % 2 == 1 {
        crc := BitXor(crc * 2, 0x1021);
      } else {
        crc := crc * 2;
      }
      crc := crc % 0x1_0000;
    }
  }

  /** The driver's loop. */
  method Crc16Ccitt(data: seq<byte>) returns (crc: nat)
    ensures crc == Crc(data)
  {
    crc := 0xFFFF;
    for i := 0 to |data|
      invariant CrcFrom(crc, data[i..]) == Crc(data)
    {
      assert data[i..][1..] == data[i + 1..];
      crc := BitXor(crc, 256 * (data[i] as int));
      crc := ShiftOut(crc, BYTE_WIDTH);
    }
  }

  // ----- The register and the message as bits, most significant bit first -----

  predicate AllClear(bits: seq<bool>) {
    forall i :: 0 <= i < |bits| ==> !bits[i]
  }

  function Zeros(n: nat): (r: seq<bool>)
    ensures |r| == n && AllClear(r)
  {
    if n == 0 then [] else [false] + Zeros(n - 1)
  }

  /** A 16-bit register, index 0 its most significant bit. */
  type Register = r: seq<bool> | |r| == 16 witness Zeros(16)

  function RegisterOf(v: nat): Register {
    LowBits(v, CRC_WIDTH)
  }

  /** The feedback taps: bits 12, 5 and 0. */
  function Taps(): (r: Register)
    ensures forall i :: 0 <= i < 16 ==> r[i] == (i == 3 || i == 10 || i == 15)
  {
    Zeros(3) + ([true] + (Zeros(6) + ([true] + (Zeros(4) + [true]))))
  }

  function Xor(r: Register, s: Register): Register {
    XorBits(r, s)
  }

  function Shifted(r: Register): Register {
    r[1..] + [false]
  }

  function Step(r: Register): Register {
    if r[0] then Xor(Shifted(r), Taps()) else Shifted(r)
  }

  function Steps(r: Register, n: nat): Register
    decreases n
  {
    if n == 0 then r else Steps(Step(r), n - 1)
  }

  /** Up to 16 bits, left-aligned. */
  function Pack(bits: seq<bool>): Register
    requires |bits| <= 16
  {
    bits + Zeros(16 - |bits|)
  }

  /** The textbook serial register: one message bit in, one step. */
  function Feed(r: Register, bits: seq<bool>): Register
    decreases |bits|
  {
    if bits == [] then r else Feed(Step(Xor(r, Pack([bits[0]]))), bits[1..])
  }

  function ByteBits(b: byte): (r: seq<bool>)
    ensures |r| == 8
  {
    LowBits(b, BYTE_WIDTH)
  }

  function Bits(data: seq<byte>): (r: seq<bool>)
    ensures |r| == 8 * |data|
  {
    if data == [] then [] else ByteBits(data[0]) + Bits(data[1..])
  }

  // ----- The byte loop is the serial register -----

  function Doubled(v: nat, k: nat): nat
    decreases k
  {
    if k == 0 then v else Doubled(2 * v, k - 1)
  }

  lemma {:induction false} DoubledBits(v: nat, n: nat, k: nat)
    ensures LowBits(Doubled(v, k), n + k) == LowBits(v, n) + Zeros(k)
    decreases k
  {
    if k > 0 {
      DoubledBits(2 * v, n + 1, k - 1);
      assert 2 * v / 2 == v && 2 * v % 2 == 0;
      assert LowBits(2 * v, n + 1) == LowBits(v, n) + [false];
    }
  }

  lemma {:induction false} NoBits(n: nat)
    ensures LowBits(0, n) == Zeros(n)
  {
    DoubledBits(0, 0, n);
    DoubledZero(n);
  }

  lemma {:induction false} DoubledZero(n: nat)
    ensures Doubled(0, n) == 0
  {
    if n > 0 { DoubledZero(n - 1); }
  }

  lemma AppendOne(v: nat, n: nat)
    ensures LowBits(2 * v + 1, n + 1) == LowBits(v, n) + [true]
  {
    assert (2 * v + 1) / 2 == v && (2 * v + 1) % 2 == 1;
  }

  lemma TapsValue(n: nat)
    requires n == 16
    ensures LowBits(0x1021, n) == Taps()
  {
    var upper := Zeros(3) + ([true] + (Zeros(6) + [true]));
    assert LowBits(0x81, n - 5) == upper by {
      NoBits(n - 13);
      AppendOne(0, n - 13);
      assert Doubled(1, 6) == 0x40;
      DoubledBits(1, n - 12, 6);
      AppendOne(0x40, n - 6);
    }
    assert LowBits(0x1021, n) == upper + Zeros(4) + [true] by {
      assert Doubled(0x81, 4) == 0x810;
      DoubledBits(0x81, n - 5, 4);
      AppendOne(0x810, n - 1);
    }
  }

  lemma Truncated(w: nat, n: nat)
    requires w < 2 * Pow2(n)
    ensures LowBits(if w >= Pow2(n) then w - Pow2(n) else w, n) == LowBits(w, n)
  {
    if w >= Pow2(n) { LowBitsCarry(w - Pow2(n), n); }
  }

  lemma DoubleBits(v: nat, n: nat)
    requires n > 0
    ensures LowBits(v * 2, n) == LowBits(v, n)[1..] + [false]
  {
    assert v * 2 / 2 == v && v * 2 % 2 == 0;
    LowBitsTop(v, n - 1);
  }

  lemma StepValue(v: nat, w: nat)
    requires v < 0x1_0000 && w == (if v >= 0x8000 then BitXor(v * 2, 0x1021) else v * 2) < 0x2_0000
    ensures BitStep(v) == if w >= 0x1_0000 then w - 0x1_0000 else w
  {
    assert v / 0x8000 % 2 == (if v >= 0x8000 then 1 else 0);
    assert w % 0x1_0000 == if w >= 0x1_0000 then w - 0x1_0000 else w;
  }

  lemma StepWithFeedback(v: nat, n: nat, taps: nat)
    requires Pow2(n) == 0x1_0000 && 0x8000 <= v < 0x1_0000 && taps == 0x1021
    ensures LowBits(BitStep(v), n) == XorBits(LowBits(v * 2, n), LowBits(taps, n))
  {
    var w := BitXor(v * 2, taps);
    assert w < 0x2_0000 by { XorBound(v * 2, taps, n + 1); }
    assert LowBits(BitStep(v), n) == LowBits(w, n) by {
      StepValue(v, w);
      Truncated(w, n);
    }
    LowBitsXor(v * 2, taps, n);
  }

  lemma StepOfWidth(v: nat, n: nat)
    requires n == 16 && Pow2(n) == 0x1_0000 && Pow2(n - 1) == 0x8000 && v < 0x1_0000
    requires LowBits(0x1021, n) == Taps()
    ensures LowBits(BitStep(v), n) == Step(LowBits(v, n))
  {
    LowBitsHead(v, n - 1);
    DoubleBits(v, n);
    if v >= 0x8000 { StepWithFeedback(v, n, 0x1021); } else { StepValue(v, v * 2); }
  }

  lemma StepOf(v: nat)
    requires v < 0x1_0000
    ensures RegisterOf(BitStep(v)) == Step(RegisterOf(v))
  {
    Pow2Values();
    TapsValue(CRC_WIDTH);
    StepOfWidth(v, CRC_WIDTH);
  }

  lemma {:induction false} StepsOf(v: nat, n: nat)
    requires v < 0x1_0000
    ensures BitSteps(v, n) < 0x1_0000
    ensures RegisterOf(BitSteps(v, n)) == Steps(RegisterOf(v), n)
    decreases n
  {
    if n > 0 {
      StepOf(v);
      StepsOf(BitStep(v), n - 1);
    }
  }

  lemma {:induction false} XorBound(a: nat, b: nat, n: nat)
    requires a < Pow2(n) && b < Pow2(n)
    ensures BitXor(a, b) < Pow2(n)
    decreases n
  {
    if n > 0 { XorBound(a / 2, b / 2, n - 1); }
  }

  lemma AlignedBits(b: byte, n: nat)
    requires n == 8
    ensures LowBits(256 * (b as int), n + n) == Pack(LowBits(b, n))
  {
    assert Doubled(b, 8) == 256 * (b as int);
    DoubledBits(b, n, n);
  }

  lemma MixOfWidth(v: nat, b: byte, n: nat, aligned: Register)
    requires n == 16 && v < Pow2(n) && 256 * (b as int) < Pow2(n)
    requires LowBits(256 * (b as int), n) == aligned
    ensures Mix(v, b) < Pow2(n)
    ensures LowBits(Mix(v, b), n) == Xor(LowBits(v, n), aligned)
  {
    XorBound(v, 256 * (b as int), n);
    LowBitsXor(v, 256 * (b as int), n);
  }

  lemma MixOf(v: nat, b: byte)
    requires v < 0x1_0000
    ensures Mix(v, b) < 0x1_0000
    ensures RegisterOf(Mix(v, b)) == Xor(RegisterOf(v), Pack(ByteBits(b)))
  {
    Pow2Values();
    AlignedBits(b, BYTE_WIDTH);
    MixOfWidth(v, b, CRC_WIDTH, Pack(ByteBits(b)));
  }

  lemma XorAssoc(r: Register, s: Register, t: Register)
    ensures Xor(Xor(r, s), t) == Xor(r, Xor(s, t))
  {}

  /** One step is linear over XOR. */
  lemma StepLinear(r: Register, s: Register)
    ensures Step(Xor(r, s)) == Xor(Step(r), Step(s))
  {
    var x, y := Step(Xor(r, s)), Xor(Step(r), Step(s));
    forall i | 0 <= i < 16 ensures x[i] == y[i] {
      if i < 15 { assert Xor(r, s)[i + 1] == (r[i + 1] != s[i + 1]); }
    }
  }

  lemma PackHead(bits: seq<bool>)
    requires 1 <= |bits| <= 16
    ensures Pack(bits) == Xor(Pack([bits[0]]), Pack([false] + bits[1..]))
    ensures Step(Pack([false] + bits[1..])) == Pack(bits[1..])
  {}

  /** Feeding up to 16 bits one at a time equals mixing them in at once. */
  lemma {:induction false} FeedIsPack(r: Register, bits: seq<bool>)
    requires |bits| <= 16
    ensures Feed(r, bits) == Steps(Xor(r, Pack(bits)), |bits|)
    decreases |bits|
  {
    if bits == [] {
      assert Xor(r, Pack(bits)) == r;
    } else {
      var top, rest := Pack([bits[0]]), Pack([false] + bits[1..]);
      PackHead(bits);
      FeedIsPack(Step(Xor(r, top)), bits[1..]);
      StepLinear(Xor(r, top), rest);
      XorAssoc(r, top, rest);
    }
  }

  lemma {:induction false} FeedAppend(r: Register, a: seq<bool>, b: seq<bool>)
    ensures Feed(r, a + b) == Feed(Feed(r, a), b)
    decreases |a|
  {
    if a == [] {
      assert a + b == b;
    } else {
      assert (a + b)[0] == a[0] && (a + b)[1..] == a[1..] + b;
      FeedAppend(Step(Xor(r, Pack([a[0]]))), a[1..], b);
    }
  }

  /** The driver's CRC register is the serial register fed the message bits. */
  lemma {:induction false} CrcIsFeed(crc: nat, data: seq<byte>)
    requires crc < 0x1_0000
    ensures CrcFrom(crc, data) < 0x1_0000
    ensures RegisterOf(CrcFrom(crc, data)) == Feed(RegisterOf(crc), Bits(data))
    decreases |data|
  {
    if data != [] {
      var mixed := Mix(crc, data[0]);
      MixOf(crc, data[0]);
      StepsOf(mixed, BYTE_WIDTH);
      FeedIsPack(RegisterOf(crc), ByteBits(data[0]));
      FeedAppend(RegisterOf(crc), ByteBits(data[0]), Bits(data[1..]));
      CrcIsFeed(BitSteps(mixed, BYTE_WIDTH), data[1..]);
    }
  }

  lemma CrcBound(data: seq<byte>)
    ensures Crc(data) < 0x1_0000
  {
    CrcIsFeed(INITIAL, data);
  }

  function AllSet(): Register {
    [true, true, true, true, true, true, true, true, true, true, true, true, true, true, true, true]
  }

  lemma {:induction false} AllOnes(n: nat)
    ensures LowBits(Pow2(n) - 1, n) == seq(n, _ => true)
  {
    if n > 0 {
      assert Pow2(n) - 1 == 2 * (Pow2(n - 1) - 1) + 1;
      AppendOne(Pow2(n - 1) - 1, n - 1);
      AllOnes(n - 1);
    }
  }

  lemma AllSetIs()
    ensures AllSet() == seq(16, _ => true)
  {}

  /** The CRC of every message is the serial register started with sixteen set
      bits and fed the message, most significant bit first. */
  lemma CrcIsSerial(data: seq<byte>)
    ensures RegisterOf(Crc(data)) == Feed(AllSet(), Bits(data))
  {
    hide AllSet, LowBits, Feed, Pow2;
    Pow2Values();
    AllOnes(CRC_WIDTH);
    AllSetIs();
    CrcIsFeed(INITIAL, data);
  }

  // ----- Linearity and injectivity -----

  lemma XorShuffle(r: Register, s: Register, a: bool, b: bool)
    ensures Xor(Xor(r, Pack([a])), Xor(s, Pack([b]))) == Xor(Xor(r, s), Pack([a != b]))
  {}

  /** The difference of two registers depends only on the difference of the
      registers before and of the messages fed to them. */
  lemma {:induction false} FeedLinear(r: Register, s: Register, a: seq<bool>, b: seq<bool>)
    requires |a| == |b|
    ensures Xor(Feed(r, a), Feed(s, b)) == Feed(Xor(r, s), XorBits(a, b))
    decreases |a|
  {
    if a != [] {
      var r', s' := Xor(r, Pack([a[0]])), Xor(s, Pack([b[0]]));
      FeedLinear(Step(r'), Step(s'), a[1..], b[1..]);
      StepLinear(r', s');
      XorShuffle(r, s, a[0], b[0]);
      assert XorBits(a, b)[1..] == XorBits(a[1..], b[1..]);
    }
  }

  lemma StepKernel(r: Register)
    ensures AllClear(Step(r)) <==> AllClear(r)
  {
    if AllClear(Step(r)) {
      assert !Step(r)[15];
      forall i | 0 <= i < 16 ensures !r[i] {
        if i > 0 { assert !Step(r)[i - 1]; }
      }
    }
  }

  lemma {:induction false} StepsKernel(r: Register, n: nat)
    requires AllClear(Steps(r, n))
    ensures AllClear(r)
    decreases n
  {
    if n > 0 {
      StepsKernel(Step(r), n - 1);
      StepKernel(r);
    }
  }

  /** Zero bits only step the register: a clear register stays clear, and no
      other register becomes clear. */
  lemma {:induction false} FeedClear(r: Register, bits: seq<bool>)
    requires AllClear(bits)
    ensures AllClear(Feed(r, bits)) <==> AllClear(r)
    decreases |bits|
  {
    if bits != [] {
      assert Xor(r, Pack([false])) == r;
      FeedClear(Step(r), bits[1..]);
      StepKernel(r);
    }
  }

  /** Up to 16 bits that are not all clear mark a clear register. */
  lemma WindowLeavesMark(r: Register, window: seq<bool>)
    requires AllClear(r) && |window| <= 16 && !AllClear(window)
    ensures !AllClear(Feed(r, window))
  {
    FeedIsPack(r, window);
    var i :| 0 <= i < |window| && window[i];
    var packed := Xor(r, Pack(window));
    assert packed[i] == (r[i] != Pack(window)[i]);
    if AllClear(Steps(packed, |window|)) { StepsKernel(packed, |window|); }
  }

  /** So does a bit string that is clear before and after such a window. */
  lemma BurstLeavesMark(r: Register, before: seq<bool>, window: seq<bool>, after: seq<bool>)
    requires AllClear(r) && AllClear(before) && AllClear(after)
    requires |window| <= 16 && !AllClear(window)
    ensures !AllClear(Feed(r, before + (window + after)))
  {
    FeedAppend(r, before, window + after);
    FeedClear(r, before);
    FeedAppend(Feed(r, before), window, after);
    WindowLeavesMark(Feed(r, before), window);
    FeedClear(Feed(Feed(r, before), window), after);
  }

  /** Split a difference at its window. */
  lemma SplitAtWindow(diff: seq<bool>, p: nat)
    returns (before: seq<bool>, window: seq<bool>, after: seq<bool>)
    requires !AllClear(diff)
    requires forall i :: 0 <= i < |diff| && !(p <= i < p + 16) ==> !diff[i]
    ensures diff == before + (window + after)
    ensures AllClear(before) && AllClear(after) && |window| <= 16 && !AllClear(window)
  {
    var k :| 0 <= k < |diff| && diff[k];
    var end := if p + 16 < |diff| then p + 16 else |diff|;
    before, window, after := diff[..p], diff[p..end], diff[end..];
    assert window[k - p] == diff[k];
    assert window + after == diff[p..];
    assert AllClear(after) by {
      forall i | 0 <= i < |after| ensures !after[i] { assert after[i] == diff[end + i]; }
    }
  }

  // ----- The burst theorem -----

  lemma {:induction false} BitsInjective(a: seq<byte>, b: seq<byte>)
    requires Bits(a) == Bits(b)
    ensures a == b
    decreases |a|
  {
    if a != [] {
      assert ByteBits(a[0]) == Bits(a)[..8] == Bits(b)[..8] == ByteBits(b[0]);
      assert Bits(a[1..]) == Bits(a)[8..] == Bits(b)[8..] == Bits(b[1..]);
      Pow2Values();
      LowBitsInjective(a[0], b[0], BYTE_WIDTH);
      BitsInjective(a[1..], b[1..]);
    }
  }

  lemma {:induction false} BitsAppend(a: seq<byte>, b: seq<byte>)
    ensures Bits(a + b) == Bits(a) + Bits(b)
    decreases |a|
  {
    if a == [] {
      assert a + b == b;
    } else {
      assert (a + b)[0] == a[0] && (a + b)[1..] == a[1..] + b;
      BitsAppend(a[1..], b);
    }
  }

  /** Equal registers after two messages mean that the difference of the
      messages leaves no mark. */
  lemma EqualCrcsClear(crc: nat, a: seq<byte>, b: seq<byte>)
    requires |a| == |b| && crc < 0x1_0000
    ensures AllClear(Xor(RegisterOf(crc), RegisterOf(crc)))
    ensures CrcFrom(crc, a) == CrcFrom(crc, b) ==>
              AllClear(Feed(Xor(RegisterOf(crc), RegisterOf(crc)), XorBits(Bits(a), Bits(b))))
  {
    CrcIsFeed(crc, a);
    CrcIsFeed(crc, b);
    SelfXor(RegisterOf(crc));
    SelfXor(Feed(RegisterOf(crc), Bits(a)));
    FeedLinear(RegisterOf(crc), RegisterOf(crc), Bits(a), Bits(b));
  }

  lemma SelfXor(r: Register)
    ensures AllClear(Xor(r, r))
  {}

  /** Two messages of one length that differ only inside some window of 16
      consecutive bits, at any bit offset, never share a CRC. */
  lemma BurstDetected(a: seq<byte>, b: seq<byte>, p: nat)
    requires |a| == |b| && a != b
    requires forall i :: 0 <= i < 8 * |a| && !(p <= i < p + 16) ==> Bits(a)[i] == Bits(b)[i]
    ensures Crc(a) != Crc(b)
  {
    var u, v := Bits(a), Bits(b);
    var diff := XorBits(u, v);
    if AllClear(diff) {
      forall i | 0 <= i < |u| ensures u[i] == v[i] { assert !diff[i]; }
      BitsInjective(a, b);
    }
    var before, window, after := SplitAtWindow(diff, p);
    EqualCrcsClear(INITIAL, a, b);
    var r := RegisterOf(INITIAL);
    BurstLeavesMark(Xor(r, r), before, window, after);
  }

  lemma DifferOnlyInside<T>(p: seq<T>, m: seq<T>, m': seq<T>, q: seq<T>)
    requires |m| == |m'|
    ensures p + m + q == p + m' + q ==> m == m'
    ensures forall i :: 0 <= i < |p + m + q| && !(|p| <= i < |p| + |m|) ==> (p + m + q)[i] == (p + m' + q)[i]
  {
    assert (p + m + q)[|p|..|p| + |m|] == m;
    assert (p + m' + q)[|p|..|p| + |m|] == m';
  }

  /** The byte form: any damage inside two adjacent bytes is detected. */
  lemma AdjacentBytesDetected(before: seq<byte>, a: seq<byte>, b: seq<byte>, after: seq<byte>)
    requires |a| == |b| <= 2 && a != b
    ensures Crc(before + a + after) != Crc(before + b + after)
  {
    assert Bits(before + a + after) == Bits(before) + Bits(a) + Bits(after) by {
      BitsAppend(before + a, after);
      BitsAppend(before, a);
    }
    assert Bits(before + b + after) == Bits(before) + Bits(b) + Bits(after) by {
      BitsAppend(before + b, after);
      BitsAppend(before, b);
    }
    DifferOnlyInside(Bits(before), Bits(a), Bits(b), Bits(after));
    DifferOnlyInside(before, a, b, after);
    BurstDetected(before + a + after, before + b + after, |Bits(before)|);
  }

  // ----- Odd errors -----

  /** Whether an odd number of the bits is set. */
  function Odd(bits: seq<bool>): bool {
    if bits == [] then false else bits[0] != Odd(bits[1..])
  }

  lemma {:induction false} OddXor(a: seq<bool>, b: seq<bool>)
    requires |a| == |b|
    ensures Odd(XorBits(a, b)) == (Odd(a) != Odd(b))
    decreases |a|
  {
    if a != [] {
      OddXor(a[1..], b[1..]);
      assert XorBits(a, b)[1..] == XorBits(a[1..], b[1..]);
    }
  }

  lemma {:induction false} OddAppend(a: seq<bool>, b: seq<bool>)
    ensures Odd(a + b) == (Odd(a) != Odd(b))
    decreases |a|
  {
    if a == [] {
      assert a + b == b;
    } else {
      assert (a + b)[1..] == a[1..] + b;
      OddAppend(a[1..], b);
    }
  }

  lemma {:induction false} OddClear(bits: seq<bool>)
    requires AllClear(bits)
    ensures !Odd(bits)
  {
    if bits != [] { OddClear(bits[1..]); }
  }

  lemma OddTaps()
    ensures Odd(Taps())
  {
    OddClear(Zeros(3)); OddClear(Zeros(6)); OddClear(Zeros(4));
    assert Odd([true]);
    OddAppend(Zeros(4), [true]);
    OddAppend([true], Zeros(4) + [true]);
    OddAppend(Zeros(6), [true] + (Zeros(4) + [true]));
    OddAppend([true], Zeros(6) + ([true] + (Zeros(4) + [true])));
    OddAppend(Zeros(3), [true] + (Zeros(6) + ([true] + (Zeros(4) + [true]))));
  }

  /** A step keeps parity: the set bit it drops is paid for by three taps. */
  lemma StepKeepsParity(r: Register)
    ensures Odd(Step(r)) == Odd(r)
  {
    OddAppend(r[1..], [false]);
    assert !Odd([false]);
    if r[0] {
      OddXor(Shifted(r), Taps());
      OddTaps();
    }
  }

  lemma {:induction false} FeedParity(r: Register, bits: seq<bool>)
    ensures Odd(Feed(r, bits)) == (Odd(r) != Odd(bits))
    decreases |bits|
  {
    if bits != [] {
      var top := Pack([bits[0]]);
      FeedParity(Step(Xor(r, top)), bits[1..]);
      StepKeepsParity(Xor(r, top));
      OddXor(r, top);
      OddAppend([bits[0]], Zeros(15));
      OddClear(Zeros(15));
      assert Odd([bits[0]]) == bits[0];
    }
  }

  /** Two messages of one length that differ in an odd number of bits never
      share a CRC, wherever the bits are. */
  lemma OddErrorsDetected(a: seq<byte>, b: seq<byte>)
    requires |a| == |b| && Odd(XorBits(Bits(a), Bits(b)))
    ensures Crc(a) != Crc(b)
  {
    OddXor(Bits(a), Bits(b));
    CrcIsFeed(INITIAL, a);
    CrcIsFeed(INITIAL, b);
    FeedParity(RegisterOf(INITIAL), Bits(a));
    FeedParity(RegisterOf(INITIAL), Bits(b));
  }
}
