/** Errors in a message and in the CRC sent with it, taken together. */
module CrcCodeword {
  import opened Bytes
  import opened Crc16
  import opened CrcOrder

  lemma XorCancels(r: Register, s: Register, t: Register)
    ensures Xor(r, s) == Xor(r, t) <==> s == t
  {
    hide XorBits;
    if Xor(r, s) == Xor(r, t) {
      forall i | 0 <= i < 16 ensures s[i] == t[i] { assert Xor(r, s)[i] == Xor(r, t)[i]; }
      assert s == t;
    }
  }

  lemma SelfIsZero(r: Register)
    ensures Xor(r, r) == Zero()
  {
    hide XorBits, Zeros;
  }

  /** A changed message passes with a changed CRC exactly when the register, fed
      the change of the message, ends as the change of the CRC. */
  lemma MissedIff(a: seq<byte>, b: seq<byte>, w: nat)
    requires |a| == |b| && w < 0x1_0000
    ensures Crc(b) == w <==>
            Feed(Zero(), XorBits(Bits(a), Bits(b))) == Xor(RegisterOf(Crc(a)), RegisterOf(w))
  {
    hide CrcFrom, Feed, RegisterOf, Zero, Xor;
    CrcIsFeed(INITIAL, a);
    CrcIsFeed(INITIAL, b);
    var r := RegisterOf(INITIAL);
    SelfIsZero(r);
    FeedLinear(r, r, Bits(a), Bits(b));
    XorCancels(RegisterOf(Crc(a)), RegisterOf(Crc(b)), RegisterOf(w));
    if RegisterOf(Crc(b)) == RegisterOf(w) { SameRegister(Crc(b), w); }
  }

  // ----- Few errors -----

  lemma {:induction false} ClearHasNoOnes(bits: seq<bool>)
    requires AllClear(bits)
    ensures Ones(bits) == 0
  {
    if bits != [] { ClearHasNoOnes(bits[1..]); }
  }

  /** Powers of x differ unless their exponents do so by a multiple of 32767. */
  lemma PowersEqualIff(m: nat, n: nat)
    requires m <= n
    ensures Power(m) == Power(n) <==> (n - m) % ORDER == 0
  {
    hide Steps;
    StepsPlus(One(), n - m, m);
    StepsInjective(Power(n - m), One(), m);
    OrderOfX(n - m);
  }

  lemma SplitSingle(diff: seq<bool>, p: nat)
    requires p < |diff| && forall i :: 0 <= i < |diff| ==> diff[i] == (i == p)
    ensures diff == diff[..p] + ([true] + diff[p + 1..])
    ensures AllClear(diff[..p]) && AllClear(diff[p + 1..])
  {
    assert diff[p..] == [true] + diff[p + 1..];
    assert diff == diff[..p] + diff[p..];
  }

  lemma ClearIsZero(r: Register)
    requires AllClear(r)
    ensures r == Zero()
  {
    hide Zeros;
  }

  /** A single set bit leaves a power of x behind. */
  lemma FeedSingle(before: seq<bool>, after: seq<bool>)
    requires AllClear(before) && AllClear(after)
    ensures Feed(Zero(), before + ([true] + after)) == Power(16 + |after|)
  {
    hide Feed, Steps, Zero, Xor, Top, Step, AllClear;
    FeedAppend(Zero(), before, [true] + after);
    FeedClear(Zero(), before);
    var r := Feed(Zero(), before);
    FeedAppend(r, [true], after);
    FeedOne(r);
    ClearXor(r, Top());
    FeedZeros(Step(Top()), after);
    StepsFirst(Top(), |after|);
    TopIsPower();
    StepsPlus(One(), 15, |after| + 1);
  }

  lemma SingleLeavesPower(diff: seq<bool>, p: nat)
    requires p < |diff| && forall i :: 0 <= i < |diff| ==> diff[i] == (i == p)
    ensures Feed(Zero(), diff) == Power(16 + (|diff| - p - 1))
  {
    hide Feed, Power, Zero;
    SplitSingle(diff, p);
    FeedSingle(diff[..p], diff[p + 1..]);
  }

  /** A register with a single bit set is a power of x. */
  lemma SingleIsPower(r: Register, q: nat)
    requires q < 16 && forall i :: 0 <= i < 16 ==> r[i] == (i == q)
    ensures r == Power(15 - q)
  {
    hide Power;
    forall i | 0 <= i < 16 ensures r[i] == Power(15 - q)[i] { ShiftedOne(15 - q, i); }
  }

  lemma OneAndOne(diff: seq<bool>, change: Register)
    requires |diff| <= 8 * 4093 && Ones(diff) == 1 && Ones(change) == 1
    ensures Feed(Zero(), diff) != change
  {
    hide Feed, Zero, Power, Ones;
    var p := OnlyOne(diff);
    var q := OnlyOne(change);
    SingleLeavesPower(diff, p);
    SingleIsPower(change, q);
    PowersEqualIff(15 - q, 16 + (|diff| - p - 1));
  }

  lemma NoneAndSome(diff: seq<bool>, change: Register)
    requires Ones(diff) == 0 && Ones(change) > 0
    ensures Feed(Zero(), diff) != change
  {
    hide Feed, Zero, Ones;
    NoOnes(diff);
    FeedClear(Zero(), diff);
    if AllClear(change) { ClearHasNoOnes(change); }
  }

  lemma TwoAndNone(diff: seq<bool>, change: Register)
    requires |diff| <= 8 * 4093 && Ones(diff) == 2 && Ones(change) == 0
    ensures Feed(Zero(), diff) != change
  {
    hide Feed, Zero, Ones;
    NoOnes(change);
    var p, q := OnlyTwo(diff);
    SplitPair(diff, p, q);
    PairLeavesMarkIff(Zero(), diff[..p], diff[p + 1..q], diff[q + 1..]);
  }

  lemma OddTotal(diff: seq<bool>, change: Register)
    requires (Ones(diff) + Ones(change)) % 2 == 1
    ensures Feed(Zero(), diff) != change
  {
    hide Feed, Zero, Ones, Odd;
    FeedParity(Zero(), diff);
    OddClear(Zero());
    OddOnes(diff);
    OddOnes(change);
  }

  lemma FewChangesShow(diff: seq<bool>, change: Register)
    requires |diff| <= 8 * 4093 && 1 <= Ones(diff) + Ones(change) <= 3
    ensures Feed(Zero(), diff) != change
  {
    hide Feed, Zero, Ones;
    if Ones(diff) + Ones(change) != 2 { OddTotal(diff, change); }
    else if Ones(diff) == 0 { NoneAndSome(diff, change); }
    else if Ones(diff) == 1 { OneAndOne(diff, change); }
    else { TwoAndNone(diff, change); }
  }

  /** One, two or three flipped bits in a message of up to 4093 bytes and its CRC
      taken together never make another message with its CRC. */
  lemma FewCodewordErrorsDetected(a: seq<byte>, b: seq<byte>, w: nat)
    requires |a| == |b| <= 4093 && w < 0x1_0000
    requires 1 <= Ones(XorBits(Bits(a), Bits(b))) + Ones(Xor(RegisterOf(Crc(a)), RegisterOf(w))) <= 3
    ensures Crc(b) != w
  {
    hide Crc, Feed, RegisterOf, Zero, XorBits, Bits, Ones, Xor;
    MissedIff(a, b, w);
    FewChangesShow(XorBits(Bits(a), Bits(b)), Xor(RegisterOf(Crc(a)), RegisterOf(w)));
  }

  // ----- The two bytes that meet at the border of message and CRC -----

  function Eight(w: Word): Word {
    StepWord(StepWord(StepWord(StepWord(StepWord(StepWord(StepWord(StepWord(w))))))))
  }

  lemma EightShows(r: Register, w: Word)
    requires Shows(r, w)
    ensures Shows(Steps(r, BYTE_WIDTH), Eight(w))
  {
    hide Shows, StepWord, Step;
    var a, b, c := Step(r), Step(Step(r)), Step(Step(Step(r)));
    StepShows(r, w);
    StepShows(a, StepWord(w));
    StepShows(b, StepWord(StepWord(w)));
    StepShows(c, StepWord(StepWord(StepWord(w))));
    var d, v := Step(c), StepWord(StepWord(StepWord(StepWord(w))));
    StepShows(d, v);
    StepShows(Step(d), StepWord(v));
    StepShows(Step(Step(d)), StepWord(StepWord(v)));
    StepShows(Step(Step(Step(d))), StepWord(StepWord(StepWord(v))));
    EightSteps(r);
  }

  lemma EightSteps(r: Register)
    ensures Steps(r, BYTE_WIDTH) == Step(Step(Step(Step(Step(Step(Step(Step(r))))))))
  {
    hide Step;
    StepsFour(r, 4);
    StepsFour(Step(Step(Step(Step(r)))), 0);
  }

  lemma StepsFour(r: Register, n: nat)
    ensures Steps(r, n + 4) == Steps(Step(Step(Step(Step(r)))), n)
  {
    hide Step;
    assert Steps(r, n + 4) == Steps(Step(r), n + 3);
    assert Steps(Step(r), n + 3) == Steps(Step(Step(r)), n + 2);
    assert Steps(Step(Step(r)), n + 2) == Steps(Step(Step(Step(r))), n + 1);
  }

  /** A change of the last byte alone leaves the high byte of the register clear
      only if it is none, or this one, and the low byte then is that one. */
  lemma EightLowOnly(w: Word, v: Word)
    requires !w.b7 && !w.b6 && !w.b5 && !w.b4 && !w.b3 && !w.b2 && !w.b1 && !w.b0
    requires !v.b15 && !v.b14 && !v.b13 && !v.b12 && !v.b11 && !v.b10 && !v.b9 && !v.b8
    ensures Eight(w) == v <==> (w == NOTHING && v == NOTHING) || (w == LAST && v == LOW)
  {}

  /** 0x89 as the last byte, 0xA1 as the low one. */
  const LAST := Word(true, false, false, false, true, false, false, true,
                     false, false, false, false, false, false, false, false)
  const LOW := Word(false, false, false, false, false, false, false, false,
                    true, false, true, false, false, false, false, true)

  function WordOf(d: seq<bool>): Word
    requires |d| == 8
  {
    Word(d[0], d[1], d[2], d[3], d[4], d[5], d[6], d[7], false, false, false, false, false, false, false, false)
  }

  lemma PackShows(d: seq<bool>)
    requires |d| == 8
    ensures Shows(Pack(d), WordOf(d))
  {
    hide Zeros;
  }

  /** Bits that the register, fed the first eight, leaves as the low eight, with
      the high eight clear. */
  predicate Meets(d: seq<bool>, e: seq<bool>)
    requires |d| == 8 && |e| == 8
  {
    && d == [true, false, false, false, true, false, false, true]
    && e == [true, false, true, false, false, false, false, true]
  }

  function LowWord(e: seq<bool>): Word
    requires |e| == 8
  {
    Word(false, false, false, false, false, false, false, false, e[0], e[1], e[2], e[3], e[4], e[5], e[6], e[7])
  }

  lemma LowShows(e: seq<bool>)
    requires |e| == 8
    ensures Shows(Zeros(8) + e, LowWord(e))
  {}

  lemma WordsDecide(d: seq<bool>, e: seq<bool>)
    requires |d| == 8 && |e| == 8
    ensures WordOf(d) == NOTHING && LowWord(e) == NOTHING <==> AllClear(d) && AllClear(e)
    ensures WordOf(d) == LAST && LowWord(e) == LOW <==> Meets(d, e)
  {}

  lemma BorderBits(d: seq<bool>, e: seq<bool>)
    requires |d| == 8 && |e| == 8
    ensures Steps(Pack(d), BYTE_WIDTH) == Zeros(8) + e <==> (AllClear(d) && AllClear(e)) || Meets(d, e)
  {
    hide Steps, Pack, Eight, Zeros, Meets, AllClear;
    PackShows(d);
    EightShows(Pack(d), WordOf(d));
    LowShows(e);
    SameWords(Steps(Pack(d), BYTE_WIDTH), Eight(WordOf(d)), Zeros(8) + e, LowWord(e));
    EightLowOnly(WordOf(d), LowWord(e));
    WordsDecide(d, e);
  }

  lemma SameWords(r: Register, v: Word, s: Register, w: Word)
    requires Shows(r, v) && Shows(s, w)
    ensures r == s <==> v == w
  {
    if v == w { ShowsOnce(r, s, w); }
  }

  lemma FeedByte(d: seq<bool>, z: seq<bool>)
    requires |d| == 8 && AllClear(z)
    ensures Feed(Zero(), z + d) == Steps(Pack(d), BYTE_WIDTH)
  {
    hide Feed, Steps, Pack, Zero;
    FeedAppend(Zero(), z, d);
    FeedClear(Zero(), z);
    ClearIsZero(Feed(Zero(), z));
    FeedIsPack(Zero(), d);
    ClearXor(Zero(), Pack(d));
  }

  lemma XorSide(p: seq<bool>, u: seq<bool>, v: seq<bool>)
    requires |u| == |v|
    ensures |p + u| == |p + v| && XorBits(p + u, p + v) == Zeros(|p|) + XorBits(u, v)
  {
    hide XorBits, Zeros;
    var l, r := XorBits(p + u, p + v), Zeros(|p|) + XorBits(u, v);
    forall i | 0 <= i < |l| ensures l[i] == r[i] {}
  }

  lemma BitsOfXor(x: byte, y: byte, v: byte)
    ensures XorBits(ByteBits(x), ByteBits(y)) == ByteBits(v) <==> BitXor(x, y) == v
    ensures AllClear(XorBits(ByteBits(x), ByteBits(y))) <==> x == y
  {
    Pow2Values();
    LowBitsXor(x, y, BYTE_WIDTH);
    XorBound(x, y, BYTE_WIDTH);
    if XorBits(ByteBits(x), ByteBits(y)) == ByteBits(v) { LowBitsInjective(BitXor(x, y), v, BYTE_WIDTH); }
    hide LowBits, XorBits;
    if AllClear(XorBits(ByteBits(x), ByteBits(y))) {
      forall i | 0 <= i < 8 ensures ByteBits(x)[i] == ByteBits(y)[i] { assert !XorBits(ByteBits(x), ByteBits(y))[i]; }
      assert ByteBits(x) == ByteBits(y);
      LowBitsInjective(x, y, BYTE_WIDTH);
    }
  }

  lemma BorderConstants()
    ensures ByteBits(0x89) == [true, false, false, false, true, false, false, true]
    ensures ByteBits(0xA1) == [true, false, true, false, false, false, false, true]
  {}

  /** A change of the last byte of a message, and of the low byte of its CRC, which
      follows it on the wire, passes exactly when the bytes change by 0x89 and
      0xA1. */
  lemma BorderMissedIff(before: seq<byte>, x: byte, y: byte, lo: byte)
    requires x != y
    ensures var crc := Crc(before + [x]);
            Crc(before + [y]) == lo + 256 * (crc / 256) <==> BitXor(x, y) == 0x89 && BitXor(crc % 256, lo) == 0xA1
  {
    var a, b := before + [x], before + [y];
    CrcBound(a);
    hide Crc, Feed, Zero, Steps, Pack, RegisterOf, Bits, ByteBits, BitXor;
    var crc := Crc(a);
    var hi: byte, was: byte := crc / 256, crc % 256;
    var w := lo + 256 * (hi as int);
    var d, e := XorBits(ByteBits(x), ByteBits(y)), XorBits(ByteBits(was), ByteBits(lo));
    MissedIff(a, b, w);
    LastByteBits(before, x);
    LastByteBits(before, y);
    XorSide(Bits(before), ByteBits(x), ByteBits(y));
    FeedByte(d, Zeros(|Bits(before)|));
    RegisterBytes(hi, was);
    RegisterBytes(hi, lo);
    XorSide(ByteBits(hi), ByteBits(was), ByteBits(lo));
    assert Xor(RegisterOf(crc), RegisterOf(w)) == Zeros(8) + e;
    BorderBits(d, e);
    BitsOfXor(x, y, 0x89);
    BitsOfXor(was, lo, 0xA1);
    BorderConstants();
  }

  lemma LastByteBits(before: seq<byte>, x: byte)
    ensures Bits(before + [x]) == Bits(before) + ByteBits(x)
  {
    BitsAppend(before, [x]);
    assert [x][1..] == [] && Bits([x]) == ByteBits(x) + Bits([]);
  }
}
