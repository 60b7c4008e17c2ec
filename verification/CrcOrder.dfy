/** How far apart two bit errors must be for the modem's CRC to miss them.

    A step of the register is multiplication by x modulo the polynomial, so the
    answer is the order of x.  It is 32767: x to that power is 1, and to none of
    the powers 32767 / 7, 32767 / 31 and 32767 / 151. */
module CrcOrder {
  import opened Bytes
  import opened Crc16

  const ORDER: nat := 32767

  // ----- Powers of x and their products -----

  function One(): (r: Register)
    ensures forall i :: 0 <= i < 16 ==> r[i] == (i == 15)
  {
    Zeros(15) + [true]
  }

  function Zero(): (r: Register)
    ensures AllClear(r)
  {
    Zeros(16)
  }

  /** x to the n. */
  function Power(n: nat): Register { Steps(One(), n) }

  function AddIf(r: Register, a: Register, bit: bool): Register {
    if bit then Xor(r, a) else r
  }

  /** `acc` shifted past `bits`, plus `a` times the polynomial `bits`. */
  function Multiplied(acc: Register, a: Register, bits: seq<bool>): Register
    decreases |bits|
  {
    if bits == [] then acc else Multiplied(AddIf(Step(acc), a, bits[0]), a, bits[1..])
  }

  lemma {:induction false} StepsPlus(r: Register, m: nat, n: nat)
    ensures Steps(r, m + n) == Steps(Steps(r, m), n)
    decreases m
  {
    if m > 0 { StepsPlus(Step(r), m - 1, n); }
  }

  lemma {:induction false} StepsOne(r: Register, n: nat)
    ensures Steps(r, n + 1) == Step(Steps(r, n))
  {
    StepsPlus(r, n, 1);
    assert Steps(Steps(r, n), 1) == Steps(Step(Steps(r, n)), 0);
  }

  /** Multiplying a factor by x multiplies the product by x. */
  lemma {:induction false} MultipliedStep(acc: Register, a: Register, bits: seq<bool>)
    ensures Multiplied(Step(acc), Step(a), bits) == Step(Multiplied(acc, a, bits))
    decreases |bits|
  {
    if bits != [] {
      StepLinear(Step(acc), a);
      MultipliedStep(AddIf(Step(acc), a, bits[0]), a, bits[1..]);
    }
  }

  lemma {:induction false} MultipliedSteps(acc: Register, a: Register, bits: seq<bool>, n: nat)
    ensures Multiplied(Steps(acc, n), Steps(a, n), bits) == Steps(Multiplied(acc, a, bits), n)
    decreases n
  {
    if n > 0 {
      MultipliedSteps(Step(acc), Step(a), bits, n - 1);
      MultipliedStep(acc, a, bits);
    }
  }

  lemma AppendBit(r: Register, bit: bool)
    requires !r[0]
    ensures AddIf(Step(r), One(), bit) == r[1..] + [bit]
  {
    hide XorBits, Zeros, Taps;
    var x := Xor(Shifted(r), One());
    forall i | 0 <= i < 16 ensures x[i] == (r[1..] + [true])[i] {}
  }

  lemma Slide<T>(acc: seq<T>, bits: seq<T>)
    requires 1 <= |bits| <= |acc|
    ensures (acc[1..] + [bits[0]])[|bits| - 1..] + bits[1..] == acc[|bits|..] + bits
  {
    assert (acc[1..] + [bits[0]])[|bits| - 1..] == acc[|bits|..] + [bits[0]];
    assert [bits[0]] + bits[1..] == bits;
  }

  /** One is neutral. */
  lemma {:induction false} MultipliedOne(acc: Register, bits: seq<bool>)
    requires |bits| <= 16 && forall i :: 0 <= i < |bits| ==> !acc[i]
    ensures Multiplied(acc, One(), bits) == acc[|bits|..] + bits
    decreases |bits|
  {
    hide Step, One, AddIf;
    if bits == [] {
      assert acc[0..] + bits == acc;
    } else {
      AppendBit(acc, bits[0]);
      Slide(acc, bits);
      MultipliedOne(acc[1..] + [bits[0]], bits[1..]);
    }
  }

  lemma {:induction false} ZeroStays(n: nat)
    ensures Steps(Zero(), n) == Zero()
  {
    if n > 0 {
      assert Step(Zero()) == Zero();
      ZeroStays(n - 1);
    }
  }

  /** Exponents add. */
  lemma PowerPlus(m: nat, n: nat)
    ensures Power(m + n) == Multiplied(Zero(), Power(m), Power(n))
  {
    MultipliedSteps(Zero(), One(), Power(n), m);
    ZeroStays(m);
    MultipliedOne(Zero(), Power(n));
    StepsPlus(One(), n, m);
    assert Zero()[16..] + Power(n) == Power(n);
  }

  // ----- Computing with sixteen booleans -----

  datatype Word = Word(
    b15: bool, b14: bool, b13: bool, b12: bool, b11: bool, b10: bool, b9: bool, b8: bool,
    b7: bool, b6: bool, b5: bool, b4: bool, b3: bool, b2: bool, b1: bool, b0: bool)

  const NOTHING :=
    Word(false, false, false, false, false, false, false, false, false, false, false, false, false, false, false, false)

  function StepWord(w: Word): Word {
    Word(w.b14, w.b13, w.b12, w.b11 != w.b15, w.b10, w.b9, w.b8, w.b7,
         w.b6, w.b5, w.b4 != w.b15, w.b3, w.b2, w.b1, w.b0, w.b15)
  }

  function XorWord(v: Word, w: Word): Word {
    Word(v.b15 != w.b15, v.b14 != w.b14, v.b13 != w.b13, v.b12 != w.b12, v.b11 != w.b11, v.b10 != w.b10,
         v.b9 != w.b9, v.b8 != w.b8, v.b7 != w.b7, v.b6 != w.b6, v.b5 != w.b5, v.b4 != w.b4,
         v.b3 != w.b3, v.b2 != w.b2, v.b1 != w.b1, v.b0 != w.b0)
  }

  /** A step and, for a set bit, an addition, in one. */
  function Horner(acc: Word, a: Word, bit: bool): Word {
    if bit then
      Word(acc.b14 != a.b15, acc.b13 != a.b14, acc.b12 != a.b13, (acc.b11 != acc.b15) != a.b12, acc.b10 != a.b11,
           acc.b9 != a.b10, acc.b8 != a.b9, acc.b7 != a.b8, acc.b6 != a.b7, acc.b5 != a.b6,
           (acc.b4 != acc.b15) != a.b5, acc.b3 != a.b4, acc.b2 != a.b3, acc.b1 != a.b2, acc.b0 != a.b1,
           acc.b15 != a.b0)
    else StepWord(acc)
  }

  lemma HornerAdds(acc: Word, a: Word)
    ensures Horner(acc, a, true) == XorWord(StepWord(acc), a)
  {}

  function Horner4(acc: Word, a: Word, x: bool, y: bool, z: bool, w: bool): Word {
    Horner(Horner(Horner(Horner(acc, a, x), a, y), a, z), a, w)
  }

  function Times(a: Word, b: Word): Word {
    var p := Horner4(NOTHING, a, b.b15, b.b14, b.b13, b.b12);
    var q := Horner4(p, a, b.b11, b.b10, b.b9, b.b8);
    var r := Horner4(q, a, b.b7, b.b6, b.b5, b.b4);
    Horner4(r, a, b.b3, b.b2, b.b1, b.b0)
  }

  /** The register holds the word. */
  predicate Shows(r: Register, w: Word) {
    && r[0] == w.b15 && r[1] == w.b14 && r[2] == w.b13 && r[3] == w.b12
    && r[4] == w.b11 && r[5] == w.b10 && r[6] == w.b9 && r[7] == w.b8
    && r[8] == w.b7 && r[9] == w.b6 && r[10] == w.b5 && r[11] == w.b4
    && r[12] == w.b3 && r[13] == w.b2 && r[14] == w.b1 && r[15] == w.b0
  }

  lemma ShowsOnce(r: Register, s: Register, w: Word)
    requires Shows(r, w) && Shows(s, w)
    ensures r == s
  {}

  lemma StepBits(r: Register)
    ensures var s := Step(r);
            && s[0] == r[1] && s[1] == r[2] && s[2] == r[3] && s[3] == (r[4] != r[0])
            && s[4] == r[5] && s[5] == r[6] && s[6] == r[7] && s[7] == r[8]
            && s[8] == r[9] && s[9] == r[10] && s[10] == (r[11] != r[0]) && s[11] == r[12]
            && s[12] == r[13] && s[13] == r[14] && s[14] == r[15] && s[15] == r[0]
  {
    hide XorBits, Taps;
  }

  lemma StepShows(r: Register, w: Word)
    requires Shows(r, w)
    ensures Shows(Step(r), StepWord(w))
  {
    hide Step;
    StepBits(r);
  }

  lemma XorShows(r: Register, v: Word, s: Register, w: Word)
    requires Shows(r, v) && Shows(s, w)
    ensures Shows(Xor(r, s), XorWord(v, w))
  {
    hide XorBits;
    var x := Xor(r, s);
    assert forall i :: 0 <= i < 16 ==> x[i] == (r[i] != s[i]);
  }

  lemma HornerShows(acc: Register, p: Word, a: Register, v: Word, bit: bool)
    requires Shows(acc, p) && Shows(a, v)
    ensures Shows(AddIf(Step(acc), a, bit), Horner(p, v, bit))
  {
    HornerAdds(p, v);
    hide Shows, Step, StepWord, XorWord, Xor;
    StepShows(acc, p);
    XorShows(Step(acc), StepWord(p), a, v);
  }

  lemma Horner4Shows(acc: Register, p: Word, a: Register, v: Word, bits: seq<bool>) returns (next: Register)
    requires Shows(acc, p) && Shows(a, v) && |bits| >= 4
    ensures Shows(next, Horner4(p, v, bits[0], bits[1], bits[2], bits[3]))
    ensures Multiplied(acc, a, bits) == Multiplied(next, a, bits[4..])
  {
    hide Shows, Step, Horner, AddIf;
    var i := AddIf(Step(acc), a, bits[0]);
    var j := AddIf(Step(i), a, bits[1]);
    var k := AddIf(Step(j), a, bits[2]);
    next := AddIf(Step(k), a, bits[3]);
    var p1 := Horner(p, v, bits[0]);
    var p2 := Horner(p1, v, bits[1]);
    HornerShows(acc, p, a, v, bits[0]);
    HornerShows(i, p1, a, v, bits[1]);
    HornerShows(j, p2, a, v, bits[2]);
    HornerShows(k, Horner(p2, v, bits[2]), a, v, bits[3]);
    assert bits[1..][1..] == bits[2..] && bits[2..][1..] == bits[3..] && bits[3..][1..] == bits[4..];
    assert Multiplied(i, a, bits[1..]) == Multiplied(j, a, bits[2..]);
    assert Multiplied(j, a, bits[2..]) == Multiplied(k, a, bits[3..]) == Multiplied(next, a, bits[4..]);
  }

  lemma ZeroShows()
    ensures Shows(Zero(), NOTHING)
  {}

  lemma TimesShows(a: Register, v: Word, b: Register, w: Word)
    requires Shows(a, v) && Shows(b, w)
    ensures Shows(Multiplied(Zero(), a, b), Times(v, w))
  {
    assert b[4..][4..] == b[8..] && b[8..][4..] == b[12..] && b[12..][4..] == [];
    hide Horner4, Multiplied, Zero, Zeros;
    ZeroShows();
    var x := Horner4Shows(Zero(), NOTHING, a, v, b);
    var p := Horner4(NOTHING, v, w.b15, w.b14, w.b13, w.b12);
    var y := Horner4Shows(x, p, a, v, b[4..]);
    var q := Horner4(p, v, w.b11, w.b10, w.b9, w.b8);
    var z := Horner4Shows(y, q, a, v, b[8..]);
    var r := Horner4(q, v, w.b7, w.b6, w.b5, w.b4);
    var last := Horner4Shows(z, r, a, v, b[12..]);
    MultipliedNothing(last, a);
  }

  lemma MultipliedNothing(acc: Register, a: Register)
    ensures Multiplied(acc, a, []) == acc
  {}

  /** x to the n is the polynomial with these bits. */
  predicate Is(n: nat, v: Word) { Shows(Power(n), v) }

  lemma Multiply(m: nat, u: Word, n: nat, v: Word, w: Word)
    requires Is(m, u) && Is(n, v) && Times(u, v) == w
    ensures Is(m + n, w)
  {
    hide Times, Shows, Power, Multiplied;
    PowerPlus(m, n);
    TimesShows(Power(m), u, Power(n), v);
  }

  lemma FirstPower()
    ensures Is(1, X1())
  {
    assert Power(1) == Steps(Step(One()), 0) == Step(One());
  }

  // ----- The powers that matter, by their bits -----

  function X1(): Word { // 0x0002
    Word(false, false, false, false, false, false, false, false, false, false, false, false, false, false, true, false)
  }

  function X2(): Word { // 0x0004
    Word(false, false, false, false, false, false, false, false, false, false, false, false, false, true, false, false)
  }

  function X4(): Word { // 0x0010
    Word(false, false, false, false, false, false, false, false, false, false, false, true, false, false, false, false)
  }

  function X8(): Word { // 0x0100
    Word(false, false, false, false, false, false, false, true, false, false, false, false, false, false, false, false)
  }

  function X9(): Word { // 0x0200
    Word(false, false, false, false, false, false, true, false, false, false, false, false, false, false, false, false)
  }

  function X16(): Word { // 0x1021
    Word(false, false, false, true, false, false, false, false, false, false, true, false, false, false, false, true)
  }

  function X25(): Word { // 0x6662
    Word(false, true, true, false, false, true, true, false, false, true, true, false, false, false, true, false)
  }

  function X32(): Word { // 0x3730
    Word(false, false, true, true, false, true, true, true, false, false, true, true, false, false, false, false)
  }

  function X33(): Word { // 0x6E60
    Word(false, true, true, false, true, true, true, false, false, true, true, false, false, false, false, false)
  }

  function X64(): Word { // 0xB861
    Word(true, false, true, true, true, false, false, false, false, true, true, false, false, false, false, true)
  }

  function X73(): Word { // 0x8FA6
    Word(true, false, false, false, true, true, true, true, true, false, true, false, false, true, true, false)
  }

  function X89(): Word { // 0xDE8A
    Word(true, true, false, true, true, true, true, false, true, false, false, false, true, false, true, false)
  }

  function X128(): Word { // 0xAEFC
    Word(true, false, true, false, true, true, true, false, true, true, true, true, true, true, false, false)
  }

  function X217(): Word { // 0x48E3
    Word(false, true, false, false, true, false, false, false, true, true, true, false, false, false, true, true)
  }

  function X256(): Word { // 0x8E29
    Word(true, false, false, false, true, true, true, false, false, false, true, false, true, false, false, true)
  }

  function X512(): Word { // 0x13FC
    Word(false, false, false, true, false, false, true, true, true, true, true, true, true, true, false, false)
  }

  function X585(): Word { // 0x4500
    Word(false, true, false, false, false, true, false, true, false, false, false, false, false, false, false, false)
  }

  function X1024(): Word { // 0x36C4
    Word(false, false, true, true, false, true, true, false, true, true, false, false, false, true, false, false)
  }

  function X1057(): Word { // 0xF2AF
    Word(true, true, true, true, false, false, true, false, true, false, true, false, true, true, true, true)
  }

  function X2048(): Word { // 0xFD50
    Word(true, true, true, true, true, true, false, true, false, true, false, true, false, false, false, false)
  }

  function X4096(): Word { // 0xAA9E
    Word(true, false, true, false, true, false, true, false, true, false, false, true, true, true, true, false)
  }

  function X4681(): Word { // 0x2C42
    Word(false, false, true, false, true, true, false, false, false, true, false, false, false, false, true, false)
  }

  function X8192(): Word { // 0x881C
    Word(true, false, false, false, true, false, false, false, false, false, false, true, true, true, false, false)
  }

  function X16384(): Word { // 0x4458
    Word(false, true, false, false, false, true, false, false, false, true, false, true, true, false, false, false)
  }

  lemma Square1()
    ensures Times(X1(), X1()) == X2()
  {}

  lemma Square2()
    ensures Times(X2(), X2()) == X4()
  {}

  lemma Square4()
    ensures Times(X4(), X4()) == X8()
  {}

  lemma Square8()
    ensures Times(X8(), X8()) == X16()
  {}

  lemma Square16()
    ensures Times(X16(), X16()) == X32()
  {}

  lemma Square32()
    ensures Times(X32(), X32()) == X64()
  {}

  lemma Square64()
    ensures Times(X64(), X64()) == X128()
  {}

  lemma Square128()
    ensures Times(X128(), X128()) == X256()
  {}

  lemma Square256()
    ensures Times(X256(), X256()) == X512()
  {}

  lemma Square512()
    ensures Times(X512(), X512()) == X1024()
  {}

  lemma Square1024()
    ensures Times(X1024(), X1024()) == X2048()
  {}

  lemma Square2048()
    ensures Times(X2048(), X2048()) == X4096()
  {}

  lemma Square4096()
    ensures Times(X4096(), X4096()) == X8192()
  {}

  lemma Square8192()
    ensures Times(X8192(), X8192()) == X16384()
  {}

  lemma Square16384()
    ensures Times(X16384(), X16384()) == X1()
  {}

  lemma Product8And1()
    ensures Times(X8(), X1()) == X9()
  {}

  lemma Product16And9()
    ensures Times(X16(), X9()) == X25()
  {}

  lemma Product64And25()
    ensures Times(X64(), X25()) == X89()
  {}

  lemma Product128And89()
    ensures Times(X128(), X89()) == X217()
  {}

  lemma Product32And1()
    ensures Times(X32(), X1()) == X33()
  {}

  lemma Product1024And33()
    ensures Times(X1024(), X33()) == X1057()
  {}

  lemma Product64And9()
    ensures Times(X64(), X9()) == X73()
  {}

  lemma Product512And73()
    ensures Times(X512(), X73()) == X585()
  {}

  lemma Product4096And585()
    ensures Times(X4096(), X585()) == X4681()
  {}

  lemma Powers1To32()
    ensures Is(2, X2())
    ensures Is(4, X4())
    ensures Is(8, X8())
    ensures Is(16, X16())
    ensures Is(32, X32())
  {
    hide Times, Is;
    FirstPower();
    Square1();
    Multiply(1, X1(), 1, X1(), X2());
    Square2();
    Multiply(2, X2(), 2, X2(), X4());
    Square4();
    Multiply(4, X4(), 4, X4(), X8());
    Square8();
    Multiply(8, X8(), 8, X8(), X16());
    Square16();
    Multiply(16, X16(), 16, X16(), X32());
  }

  lemma Powers32To1024()
    requires Is(32, X32())
    ensures Is(64, X64())
    ensures Is(128, X128())
    ensures Is(256, X256())
    ensures Is(512, X512())
    ensures Is(1024, X1024())
  {
    hide Times, Is;
    Square32();
    Multiply(32, X32(), 32, X32(), X64());
    Square64();
    Multiply(64, X64(), 64, X64(), X128());
    Square128();
    Multiply(128, X128(), 128, X128(), X256());
    Square256();
    Multiply(256, X256(), 256, X256(), X512());
    Square512();
    Multiply(512, X512(), 512, X512(), X1024());
  }

  lemma Powers1024To32768()
    requires Is(1024, X1024())
    ensures Is(2048, X2048())
    ensures Is(4096, X4096())
    ensures Is(8192, X8192())
    ensures Is(16384, X16384())
    ensures Is(32768, X1())
  {
    hide Times, Is;
    Square1024();
    Multiply(1024, X1024(), 1024, X1024(), X2048());
    Square2048();
    Multiply(2048, X2048(), 2048, X2048(), X4096());
    Square4096();
    Multiply(4096, X4096(), 4096, X4096(), X8192());
    Square8192();
    Multiply(8192, X8192(), 8192, X8192(), X16384());
    Square16384();
    Multiply(16384, X16384(), 16384, X16384(), X1());
  }

  lemma Power217()
    requires Is(1, X1()) && Is(8, X8()) && Is(16, X16()) && Is(64, X64()) && Is(128, X128())
    ensures Is(217, X217())
  {
    hide Times, Is;
    Product8And1();
    Multiply(8, X8(), 1, X1(), X9());
    Product16And9();
    Multiply(16, X16(), 9, X9(), X25());
    Product64And25();
    Multiply(64, X64(), 25, X25(), X89());
    Product128And89();
    Multiply(128, X128(), 89, X89(), X217());
  }

  lemma Power1057()
    requires Is(1, X1()) && Is(32, X32()) && Is(1024, X1024())
    ensures Is(1057, X1057())
  {
    hide Times, Is;
    Product32And1();
    Multiply(32, X32(), 1, X1(), X33());
    Product1024And33();
    Multiply(1024, X1024(), 33, X33(), X1057());
  }

  lemma Power4681()
    requires Is(1, X1()) && Is(8, X8()) && Is(64, X64()) && Is(512, X512()) && Is(4096, X4096())
    ensures Is(4681, X4681())
  {
    hide Times, Is;
    Product8And1();
    Multiply(8, X8(), 1, X1(), X9());
    Product64And9();
    Multiply(64, X64(), 9, X9(), X73());
    Product512And73();
    Multiply(512, X512(), 73, X73(), X585());
    Product4096And585();
    Multiply(4096, X4096(), 585, X585(), X4681());
  }

  // ----- The order of x -----

  /** x to the n is 1. */
  predicate Returns(n: nat) { Power(n) == One() }

  lemma ClearDifference(r: Register, s: Register)
    ensures AllClear(Xor(r, s)) <==> r == s
  {
    hide XorBits;
    if AllClear(Xor(r, s)) {
      forall i | 0 <= i < 16 ensures r[i] == s[i] { assert !Xor(r, s)[i]; }
    }
  }

  lemma StepInjective(r: Register, s: Register)
    ensures Step(r) == Step(s) <==> r == s
  {
    hide Step, Xor;
    StepLinear(r, s);
    StepKernel(Xor(r, s));
    ClearDifference(r, s);
    ClearDifference(Step(r), Step(s));
  }

  lemma {:induction false} StepsInjective(r: Register, s: Register, n: nat)
    ensures Steps(r, n) == Steps(s, n) <==> r == s
    decreases n
  {
    if n > 0 {
      StepsInjective(Step(r), Step(s), n - 1);
      StepInjective(r, s);
    }
  }

  lemma KnownPowers()
    ensures Power(32768) == Power(1) && !Returns(217) && !Returns(1057) && !Returns(4681)
  {
    FirstPower();
    Powers1To32();
    Powers32To1024();
    Powers1024To32768();
    Power217();
    Power1057();
    Power4681();
    ShowsOnce(Power(32768), Power(1), X1());
    hide Power;
    assert Power(217)[1] && Power(1057)[1] && Power(4681)[2];
  }

  lemma FullCircle()
    ensures Returns(ORDER)
  {
    KnownPowers();
    StepsOne(One(), ORDER);
    StepsOne(One(), 0);
    StepInjective(Power(ORDER), One());
  }

  lemma ReturnsPlus(m: nat, n: nat)
    requires Returns(m)
    ensures Returns(m + n) <==> Returns(n)
  {
    StepsPlus(One(), m, n);
  }

  lemma {:induction false} ReturnsMultiple(m: nat, k: nat)
    requires Returns(m)
    ensures Returns(k * m)
    decreases k
  {
    if k > 0 {
      hide Returns;
      ReturnsMultiple(m, k - 1);
      ReturnsPlus(m, (k - 1) * m);
      assert m + (k - 1) * m == k * m;
    }
  }

  lemma ReturnsRest(m: nat, n: nat)
    requires Returns(m) && m > 0
    ensures Returns(n) <==> Returns(n % m)
  {
    hide Returns;
    ReturnsMultiple(m, n / m);
    ReturnsPlus(n / m * m, n % m);
    assert n / m * m + n % m == n;
  }

  lemma {:induction false} LeastReturn(n: nat) returns (d: nat)
    requires Returns(n) && n > 0
    ensures 0 < d <= n && Returns(d) && forall e :: 0 < e < d ==> !Returns(e)
    decreases n
  {
    hide Returns;
    d := n;
    if e: nat :| 0 < e < n && Returns(e) { d := LeastReturn(e); }
  }

  lemma SevenSplits(d: nat, k: nat)
    requires d * k == ORDER
    ensures d % 7 == 0 || k % 7 == 0
  {
    var a, r, b, s := d / 7, d % 7, k / 7, k % 7;
    assert d * k == 7 * (7 * a * b + a * s + b * r) + r * s;
    SmallResidues(r, s, 4681 - (7 * a * b + a * s + b * r));
  }

  lemma SmallResidues(r: nat, s: nat, t: int)
    requires r < 7 && s < 7 && r * s == 7 * t
    ensures r == 0 || s == 0
  {
    assert r == 0 || r == 1 || r == 2 || r == 3 || r == 4 || r == 5 || r == 6;
  }

  lemma SmallFactor(x: nat, y: nat)
    requires x * y == 4681 && x <= 68
    ensures x == 1 || x == 31
  {
    assert x != 0 && x != 2 && x != 3 && x != 4 && x != 5 && x != 6 && x != 7 && x != 8 && x != 9 && x != 10;
    assert x != 11 && x != 12 && x != 13 && x != 14 && x != 15 && x != 16 && x != 17 && x != 18 && x != 19 && x != 20;
    assert x != 21 && x != 22 && x != 23 && x != 24 && x != 25 && x != 26 && x != 27 && x != 28 && x != 29 && x != 30;
    assert x != 32 && x != 33 && x != 34 && x != 35 && x != 36 && x != 37 && x != 38 && x != 39 && x != 40 && x != 41;
    assert x != 42 && x != 43 && x != 44 && x != 45 && x != 46 && x != 47 && x != 48 && x != 49 && x != 50 && x != 51;
    assert x != 52 && x != 53 && x != 54 && x != 55 && x != 56 && x != 57 && x != 58 && x != 59 && x != 60 && x != 61;
    assert x != 62 && x != 63 && x != 64 && x != 65 && x != 66 && x != 67 && x != 68;
  }

  lemma OneIsSmall(x: nat, y: nat)
    requires x * y == 4681
    ensures x <= 68 || y <= 68
  {
    if x >= 69 && y >= 69 { BothLarge(x, y); }
  }

  lemma BothLarge(x: nat, y: nat)
    requires x >= 69 && y >= 69
    ensures x * y >= 69 * 69
  {
    assert x * y >= 69 * y;
  }

  /** A proper divisor of 32767 divides 217, 1057 or 4681. */
  lemma ProperDivisor(d: nat, k: nat) returns (m: nat)
    requires d * k == ORDER && k > 1
    ensures m * d == 217 || m * d == 1057 || m * d == 4681
  {
    SevenSplits(d, k);
    if k % 7 == 0 {
      m := k / 7;
      assert 7 * (m * d) == d * k;
    } else {
      var e := d / 7;
      assert 7 * (e * k) == d * k;
      OneIsSmall(e, k);
      if e <= 68 {
        SmallFactor(e, k);
        m := if e == 1 then 31 else 1;
      } else {
        SmallFactor(k, e);
        m := 1;
      }
    }
  }

  lemma NoProperReturn(d: nat, k: nat)
    requires d * k == ORDER && k > 1
    ensures !Returns(d)
  {
    hide Returns;
    KnownPowers();
    var m := ProperDivisor(d, k);
    if Returns(d) { ReturnsMultiple(d, m); }
  }

  /** The powers of x return to 1 exactly at the multiples of 32767. */
  lemma OrderOfX(n: nat)
    ensures Returns(n) <==> n % ORDER == 0
  {
    hide Returns;
    FullCircle();
    var d := LeastReturn(ORDER);
    ReturnsRest(d, ORDER);
    var k := ORDER / d;
    assert ORDER == d * k;
    if k > 1 { NoProperReturn(d, k); }
    assert d == ORDER;
    ReturnsRest(ORDER, n);
    ReturnsMultiple(ORDER, 0);
  }

  // ----- Two bit errors -----

  /** The register behind one set bit. */
  function Top(): Register { Pack([true]) }

  lemma {:induction false} ShiftedOne(k: nat, i: nat)
    requires k <= 15 && i < 16
    ensures Power(k)[i] == (i == 15 - k)
  {
    if k > 0 {
      StepsOne(One(), k - 1);
      ShiftedOne(k - 1, 0);
      if i < 15 { ShiftedOne(k - 1, i + 1); }
    }
  }

  lemma TopIsPower()
    ensures Top() == Power(15)
  {
    hide Power, Zeros;
    forall i | 0 <= i < 16 ensures Top()[i] == Power(15)[i] { ShiftedOne(15, i); }
  }

  lemma {:induction false} FeedZeros(r: Register, bits: seq<bool>)
    requires AllClear(bits)
    ensures Feed(r, bits) == Steps(r, |bits|)
    decreases |bits|
  {
    if bits != [] {
      assert Xor(r, Pack([false])) == r;
      FeedZeros(Step(r), bits[1..]);
    }
  }

  lemma FeedOne(r: Register)
    ensures Feed(r, [true]) == Step(Xor(r, Top()))
  {
    assert [true][1..] == [];
  }

  /** Set bits `d` apart cancel exactly when d is a multiple of the order. */
  lemma TopReturns(d: nat)
    ensures Steps(Top(), d) == Top() <==> d % ORDER == 0
  {
    hide Steps;
    TopIsPower();
    StepsPlus(One(), 15, d);
    StepsPlus(One(), d, 15);
    StepsInjective(Power(d), One(), 15);
    OrderOfX(d);
  }

  lemma PairLeavesMarkIff(r: Register, before: seq<bool>, gap: seq<bool>, after: seq<bool>)
    requires AllClear(r) && AllClear(before) && AllClear(gap) && AllClear(after)
    ensures AllClear(Feed(r, before + ([true] + (gap + ([true] + after))))) <==> (|gap| + 1) % ORDER == 0
  {
    hide Feed, Steps, Xor, Top;
    var r1 := Feed(r, before);
    var r2 := Feed(r1, [true]);
    var r3 := Feed(r2, gap);
    var r4 := Feed(r3, [true]);
    FeedAppend(r, before, [true] + (gap + ([true] + after)));
    FeedAppend(r1, [true], gap + ([true] + after));
    FeedAppend(r2, gap, [true] + after);
    FeedAppend(r3, [true], after);
    FeedClear(r, before);
    FeedOne(r1);
    ClearXor(r1, Top());
    FeedZeros(r2, gap);
    StepsFirst(Top(), |gap|);
    FeedOne(r3);
    StepKernel(Xor(r3, Top()));
    ClearDifference(r3, Top());
    TopReturns(|gap| + 1);
    FeedClear(r4, after);
  }

  lemma ClearXor(r: Register, s: Register)
    requires AllClear(r)
    ensures Xor(r, s) == s
  {}

  lemma StepsFirst(r: Register, n: nat)
    ensures Steps(Step(r), n) == Steps(r, n + 1)
  {}

  lemma EqualCrcsIff(a: seq<byte>, b: seq<byte>)
    requires |a| == |b|
    ensures var r := Xor(RegisterOf(INITIAL), RegisterOf(INITIAL));
            AllClear(r) && (Crc(a) == Crc(b) <==> AllClear(Feed(r, XorBits(Bits(a), Bits(b)))))
  {
    hide CrcFrom, Feed, RegisterOf;
    CrcIsFeed(INITIAL, a);
    CrcIsFeed(INITIAL, b);
    var r := RegisterOf(INITIAL);
    SelfXor(r);
    FeedLinear(r, r, Bits(a), Bits(b));
    ClearDifference(Feed(r, Bits(a)), Feed(r, Bits(b)));
    if RegisterOf(Crc(a)) == RegisterOf(Crc(b)) { SameRegister(Crc(a), Crc(b)); }
  }

  lemma SameRegister(v: nat, w: nat)
    requires v < 0x1_0000 && w < 0x1_0000 && RegisterOf(v) == RegisterOf(w)
    ensures v == w
  {
    Pow2Values();
    LowBitsInjective(v, w, CRC_WIDTH);
  }

  predicate SetExactlyAt(diff: seq<bool>, p: nat, q: nat) {
    p < q < |diff| && forall i :: 0 <= i < |diff| ==> diff[i] == (i == p || i == q)
  }

  /** Two messages of any one length that differ in exactly two bits share a CRC
      exactly when these are a multiple of 32767 bits apart. */
  lemma DoubleErrorMissedIff(a: seq<byte>, b: seq<byte>, p: nat, q: nat)
    requires |a| == |b| && SetExactlyAt(XorBits(Bits(a), Bits(b)), p, q)
    ensures Crc(a) == Crc(b) <==> (q - p) % ORDER == 0
  {
    hide Crc, Feed, XorBits, RegisterOf;
    var diff := XorBits(Bits(a), Bits(b));
    EqualCrcsIff(a, b);
    var before, gap, after := diff[..p], diff[p + 1..q], diff[q + 1..];
    SplitPair(diff, p, q);
    PairLeavesMarkIff(Xor(RegisterOf(INITIAL), RegisterOf(INITIAL)), before, gap, after);
  }

  lemma SplitPair(diff: seq<bool>, p: nat, q: nat)
    requires SetExactlyAt(diff, p, q)
    ensures diff == diff[..p] + ([true] + (diff[p + 1..q] + ([true] + diff[q + 1..])))
    ensures AllClear(diff[..p]) && AllClear(diff[p + 1..q]) && AllClear(diff[q + 1..])
  {
    assert diff[q..] == [true] + diff[q + 1..];
    assert diff[p + 1..] == diff[p + 1..q] + diff[q..];
    assert diff[p..] == [true] + diff[p + 1..];
    assert diff == diff[..p] + diff[p..];
  }

  // ----- Up to three bit errors -----

  function Ones(bits: seq<bool>): nat {
    if bits == [] then 0 else (if bits[0] then 1 else 0) + Ones(bits[1..])
  }

  lemma {:induction false} OnesAppend(a: seq<bool>, b: seq<bool>)
    ensures Ones(a + b) == Ones(a) + Ones(b)
    decreases |a|
  {
    if a == [] {
      assert a + b == b;
    } else {
      assert (a + b)[0] == a[0] && (a + b)[1..] == a[1..] + b;
      OnesAppend(a[1..], b);
    }
  }

  lemma {:induction false} XorOfJoined(a: seq<bool>, b: seq<bool>, c: seq<bool>, d: seq<bool>)
    requires |a| == |c| && |b| == |d|
    ensures XorBits(a + b, c + d) == XorBits(a, c) + XorBits(b, d)
    decreases |a|
  {
    if a == [] {
      assert a + b == b && c + d == d;
    } else {
      assert (a + b)[1..] == a[1..] + b && (c + d)[1..] == c[1..] + d;
      XorOfJoined(a[1..], b, c[1..], d);
      AppendAssoc([a[0] != c[0]], XorBits(a[1..], c[1..]), XorBits(b, d));
    }
  }

  lemma RegisterBytes(hi: byte, lo: byte)
    ensures RegisterOf(lo + 256 * (hi as int)) == ByteBits(hi) + ByteBits(lo)
  {
    Pow2Values();
    LowBitsJoin(hi, lo, BYTE_WIDTH, BYTE_WIDTH);
  }

  lemma PairBits(lo: byte, hi: byte)
    ensures Bits([lo, hi]) == ByteBits(lo) + ByteBits(hi)
  {
    assert [lo, hi][1..] == [hi] && [hi][1..] == [];
    assert Bits([hi]) == ByteBits(hi) + Bits([]);
  }

  /** As many bits change in a CRC as in its two bytes on the wire. */
  lemma OnesSwap(lo: byte, hi: byte, lo': byte, hi': byte)
    ensures Ones(XorBits(Bits([lo, hi]), Bits([lo', hi']))) ==
            Ones(Xor(RegisterOf(lo + 256 * (hi as int)), RegisterOf(lo' + 256 * (hi' as int))))
  {
    hide XorBits, Bits, ByteBits, RegisterOf, Ones;
    PairBits(lo, hi);
    PairBits(lo', hi');
    RegisterBytes(hi, lo);
    RegisterBytes(hi', lo');
    var l, h := XorBits(ByteBits(lo), ByteBits(lo')), XorBits(ByteBits(hi), ByteBits(hi'));
    XorOfJoined(ByteBits(lo), ByteBits(hi), ByteBits(lo'), ByteBits(hi'));
    XorOfJoined(ByteBits(hi), ByteBits(lo), ByteBits(hi'), ByteBits(lo'));
    OnesAppend(l, h);
    OnesAppend(h, l);
  }

  lemma {:induction false} OddOnes(bits: seq<bool>)
    ensures Odd(bits) == (Ones(bits) % 2 == 1)
  {
    if bits != [] { OddOnes(bits[1..]); }
  }

  lemma {:induction false} NoOnes(bits: seq<bool>)
    requires Ones(bits) == 0
    ensures AllClear(bits)
  {
    if bits != [] {
      NoOnes(bits[1..]);
      forall i | 0 <= i < |bits| ensures !bits[i] { if i > 0 { assert bits[i] == bits[1..][i - 1]; } }
    }
  }

  lemma {:induction false} OnlyOne(bits: seq<bool>) returns (p: nat)
    requires Ones(bits) == 1
    ensures p < |bits| && forall i :: 0 <= i < |bits| ==> bits[i] == (i == p)
  {
    var rest := bits[1..];
    if bits[0] {
      NoOnes(rest);
      p := 0;
      forall i | 0 < i < |bits| ensures !bits[i] { assert bits[i] == rest[i - 1]; }
    } else {
      var k := OnlyOne(rest);
      p := k + 1;
      forall i | 0 < i < |bits| ensures bits[i] == (i == p) { assert bits[i] == rest[i - 1]; }
    }
  }

  lemma {:induction false} OnlyTwo(bits: seq<bool>) returns (p: nat, q: nat)
    requires Ones(bits) == 2
    ensures SetExactlyAt(bits, p, q)
  {
    var rest := bits[1..];
    if bits[0] {
      var k := OnlyOne(rest);
      p, q := 0, k + 1;
    } else {
      var j, k := OnlyTwo(rest);
      p, q := j + 1, k + 1;
    }
    forall i | 0 < i < |bits| ensures bits[i] == (i == p || i == q) { assert bits[i] == rest[i - 1]; }
  }

  /** In messages of up to 4095 bytes every change of one, two or three bits,
      wherever they are, changes the CRC. */
  lemma FewErrorsDetected(a: seq<byte>, b: seq<byte>)
    requires |a| == |b| <= 4095 && 1 <= Ones(XorBits(Bits(a), Bits(b))) <= 3
    ensures Crc(a) != Crc(b)
  {
    hide Crc, XorBits, Bits, Ones, Odd;
    var diff := XorBits(Bits(a), Bits(b));
    OddOnes(diff);
    if Ones(diff) == 2 {
      var p, q := OnlyTwo(diff);
      DoubleErrorMissedIff(a, b, p, q);
    } else {
      OddErrorsDetected(a, b);
    }
  }
}
