/** How far apart two flipped bits must be for the Modbus CRC to miss them. The generator is x + 1 times a
    primitive polynomial of degree 15, so the powers of x modulo it repeat after 32767 and not before;
    that is computed here by squaring. */
module ModbusPeriod {
  import opened Modbus

  // ---------------------------------------------------------------- powers of x

  /** The register as a polynomial modulo the generator: place 15 - i is the coefficient of x to the i, a
      turn of the loop multiplies by x, and this is 1. */
  const ONE: bv16 := 0x8000

  /** A polynomial; the wrapping keeps its laws apart from those of words. */
  datatype Poly = Poly(bits: bv16)

  function Turn(p: Poly): Poly {
    Poly(ShiftBit(p.bits))
  }

  function Add(p: Poly, q: Poly): Poly {
    Poly(p.bits ^ q.bits)
  }

  const NOTHING: Poly := Poly(0)

  function MultiplyStep(r: Poly, w: Poly, bit: bool): Poly {
    Add(Turn(r), if bit then w else NOTHING)
  }

  predicate Has(v: bv16, mask: bv16) {
    v & mask != 0
  }

  /** The coefficients of a polynomial, highest first. */
  function Coefficients(v: bv16): (c: seq<bool>)
    ensures |c| == 16
  {
    [Has(v, 0x0001), Has(v, 0x0002), Has(v, 0x0004), Has(v, 0x0008),
     Has(v, 0x0010), Has(v, 0x0020), Has(v, 0x0040), Has(v, 0x0080),
     Has(v, 0x0100), Has(v, 0x0200), Has(v, 0x0400), Has(v, 0x0800),
     Has(v, 0x1000), Has(v, 0x2000), Has(v, 0x4000), Has(v, 0x8000)]
  }

  /** The product of two polynomials, one of them given by its coefficients. */
  function Multiply(c: seq<bool>, w: Poly): Poly
    requires |c| == 16
  {
    var h := Quarter(NOTHING, w, c[0], c[1], c[2], c[3]);
    var i := Quarter(h, w, c[4], c[5], c[6], c[7]);
    Upper(i, w, c[8], c[9], c[10], c[11], c[12], c[13], c[14], c[15])
  }

  function Upper(r: Poly, w: Poly, a: bool, b: bool, c: bool, d: bool, e: bool, f: bool, g: bool, h: bool): Poly {
    Quarter(Quarter(r, w, a, b, c, d), w, e, f, g, h)
  }

  function Quarter(r: Poly, w: Poly, a: bool, b: bool, c: bool, d: bool): Poly {
    MultiplyStep(MultiplyStep(MultiplyStep(MultiplyStep(r, w, a), w, b), w, c), w, d)
  }

  lemma ShiftBitIsLinear(x: bv16, y: bv16)
    ensures ShiftBit(x ^ y) == ShiftBit(x) ^ ShiftBit(y)
  {
    hide ShiftBit, Places, FeedBit;
    PlacesOfXor(x, y);
    PlacesOfShiftBit(x ^ y);
    PlacesOfShiftBit(x);
    PlacesOfShiftBit(y);
    FeedBitDifference(Places(x), Places(y), false, false);
    PlacesOfXor(ShiftBit(x), ShiftBit(y));
    PlacesInjective(ShiftBit(x ^ y), ShiftBit(x) ^ ShiftBit(y));
  }

  lemma TurnIsLinear(p: Poly, q: Poly)
    ensures Turn(Add(p, q)) == Add(Turn(p), Turn(q))
  {
    match (p, q)
    case (Poly(x), Poly(y)) => TurnWords(x, y);
  }

  lemma TurnWords(x: bv16, y: bv16)
    ensures Turn(Add(Poly(x), Poly(y))) == Add(Turn(Poly(x)), Turn(Poly(y)))
  {
    hide ShiftBit, Turn, Add;
    ShiftBitIsLinear(x, y);
    AddWords(x, y);
    TurnWord(x ^ y);
    TurnWord(x);
    TurnWord(y);
    AddWords(ShiftBit(x), ShiftBit(y));
  }

  lemma AddWords(x: bv16, y: bv16)
    ensures Add(Poly(x), Poly(y)) == Poly(x ^ y)
  {
  }

  lemma TurnWord(x: bv16)
    ensures Turn(Poly(x)) == Poly(ShiftBit(x))
  {
    hide ShiftBit;
  }

  lemma TurnOfNothing()
    ensures Turn(NOTHING) == NOTHING
  {
  }

  lemma MultiplyStepTurns(r: Poly, w: Poly, bit: bool)
    ensures MultiplyStep(Turn(r), Turn(w), bit) == Turn(MultiplyStep(r, w, bit))
  {
    hide Turn, Add;
    TurnIsLinear(Turn(r), if bit then w else NOTHING);
    TurnOfNothing();
  }

  lemma QuarterTurns(r: Poly, w: Poly, a: bool, b: bool, c: bool, d: bool)
    ensures Quarter(Turn(r), Turn(w), a, b, c, d) == Turn(Quarter(r, w, a, b, c, d))
  {
    hide Turn, MultiplyStep;
    MultiplyStepTurns(r, w, a);
    var s := MultiplyStep(r, w, a);
    MultiplyStepTurns(s, w, b);
    var t := MultiplyStep(s, w, b);
    MultiplyStepTurns(t, w, c);
    MultiplyStepTurns(MultiplyStep(t, w, c), w, d);
  }

  lemma MultiplyTurns(c: seq<bool>, w: Poly)
    requires |c| == 16
    ensures Multiply(c, Turn(w)) == Turn(Multiply(c, w))
  {
    hide Turn, Quarter;
    TurnOfNothing();
    var h := Quarter(NOTHING, w, c[0], c[1], c[2], c[3]);
    var i := Quarter(h, w, c[4], c[5], c[6], c[7]);
    var j := Quarter(i, w, c[8], c[9], c[10], c[11]);
    QuarterTurns(NOTHING, w, c[0], c[1], c[2], c[3]);
    QuarterTurns(h, w, c[4], c[5], c[6], c[7]);
    QuarterTurns(i, w, c[8], c[9], c[10], c[11]);
    QuarterTurns(j, w, c[12], c[13], c[14], c[15]);
  }

  /** The low coefficients of a word, moved up by `n` places. */
  function Top(v: bv16, mask: bv16, n: bv4): bv16 {
    (v & mask) << n
  }

  /** Multiplying by 1 puts the coefficients back one by one. */
  lemma MultiplyByOne(v: bv16)
    ensures Multiply(Coefficients(v), Poly(ONE)) == Poly(v)
  {
    hide Quarter, Has;
    LowQuarter(v);
    SecondQuarter(v);
    ThirdQuarter(v);
    HighQuarter(v);
    assert v & 0xFFFF == v;
  }

  lemma LowQuarter(v: bv16)
    ensures Quarter(NOTHING, Poly(ONE), Has(v, 0x0001), Has(v, 0x0002), Has(v, 0x0004), Has(v, 0x0008)) ==
            Poly(Top(v, 0xF, 12))
  {
    hide MultiplyStep, Has;
    Put0(v);
    Put1(v);
    Put2(v);
    Put3(v);
  }

  lemma SecondQuarter(v: bv16)
    ensures Quarter(Poly(Top(v, 0xF, 12)), Poly(ONE), Has(v, 0x0010), Has(v, 0x0020), Has(v, 0x0040), Has(v, 0x0080)) ==
            Poly(Top(v, 0xFF, 8))
  {
    hide MultiplyStep, Has;
    Put4(v);
    Put5(v);
    Put6(v);
    Put7(v);
  }

  lemma ThirdQuarter(v: bv16)
    ensures Quarter(Poly(Top(v, 0xFF, 8)), Poly(ONE), Has(v, 0x0100), Has(v, 0x0200), Has(v, 0x0400), Has(v, 0x0800)) ==
            Poly(Top(v, 0xFFF, 4))
  {
    hide MultiplyStep, Has;
    Put8(v);
    Put9(v);
    Put10(v);
    Put11(v);
  }

  lemma HighQuarter(v: bv16)
    ensures Quarter(Poly(Top(v, 0xFFF, 4)), Poly(ONE), Has(v, 0x1000), Has(v, 0x2000), Has(v, 0x4000),
                    Has(v, 0x8000)) ==
            Poly(Top(v, 0xFFFF, 0))
  {
    hide MultiplyStep, Has;
    Put12(v);
    Put13(v);
    Put14(v);
    Put15(v);
  }

  /** A word without its last bit is only moved by a turn. */
  lemma PutWord(y: bv16, bit: bool, z: bv16)
    requires y & 1 == 0 && z == (y >> 1) ^ if bit then 0x8000 else 0
    ensures MultiplyStep(Poly(y), Poly(ONE), bit) == Poly(z)
  {
    hide ShiftBit, Turn, Add;
    EvenShift(y);
    TurnWord(y);
    AddWords(ShiftBit(y), if bit then ONE else 0);
  }

  lemma EvenShift(y: bv16)
    requires y & 1 == 0
    ensures ShiftBit(y) == y >> 1
  {
  }

  lemma Put0(v: bv16)
    ensures MultiplyStep(NOTHING, Poly(ONE), Has(v, 0x0001)) == Poly(Top(v, 0x1, 15))
  {
  }

  lemma Put1(v: bv16)
    ensures MultiplyStep(Poly(Top(v, 0x1, 15)), Poly(ONE), Has(v, 0x0002)) == Poly(Top(v, 0x3, 14))
  {
    hide MultiplyStep, Has, Top;
    Word1(v);
    PutWord(Top(v, 0x1, 15), Has(v, 0x0002), Top(v, 0x3, 14));
  }

  lemma Put2(v: bv16)
    ensures MultiplyStep(Poly(Top(v, 0x3, 14)), Poly(ONE), Has(v, 0x0004)) == Poly(Top(v, 0x7, 13))
  {
    hide MultiplyStep, Has, Top;
    Word2(v);
    PutWord(Top(v, 0x3, 14), Has(v, 0x0004), Top(v, 0x7, 13));
  }

  lemma Put3(v: bv16)
    ensures MultiplyStep(Poly(Top(v, 0x7, 13)), Poly(ONE), Has(v, 0x0008)) == Poly(Top(v, 0xF, 12))
  {
    hide MultiplyStep, Has, Top;
    Word3(v);
    PutWord(Top(v, 0x7, 13), Has(v, 0x0008), Top(v, 0xF, 12));
  }

  lemma Put4(v: bv16)
    ensures MultiplyStep(Poly(Top(v, 0xF, 12)), Poly(ONE), Has(v, 0x0010)) == Poly(Top(v, 0x1F, 11))
  {
    hide MultiplyStep, Has, Top;
    Word4(v);
    PutWord(Top(v, 0xF, 12), Has(v, 0x0010), Top(v, 0x1F, 11));
  }

  lemma Put5(v: bv16)
    ensures MultiplyStep(Poly(Top(v, 0x1F, 11)), Poly(ONE), Has(v, 0x0020)) == Poly(Top(v, 0x3F, 10))
  {
    hide MultiplyStep, Has, Top;
    Word5(v);
    PutWord(Top(v, 0x1F, 11), Has(v, 0x0020), Top(v, 0x3F, 10));
  }

  lemma Put6(v: bv16)
    ensures MultiplyStep(Poly(Top(v, 0x3F, 10)), Poly(ONE), Has(v, 0x0040)) == Poly(Top(v, 0x7F, 9))
  {
    hide MultiplyStep, Has, Top;
    Word6(v);
    PutWord(Top(v, 0x3F, 10), Has(v, 0x0040), Top(v, 0x7F, 9));
  }

  lemma Put7(v: bv16)
    ensures MultiplyStep(Poly(Top(v, 0x7F, 9)), Poly(ONE), Has(v, 0x0080)) == Poly(Top(v, 0xFF, 8))
  {
    hide MultiplyStep, Has, Top;
    Word7(v);
    PutWord(Top(v, 0x7F, 9), Has(v, 0x0080), Top(v, 0xFF, 8));
  }

  lemma Put8(v: bv16)
    ensures MultiplyStep(Poly(Top(v, 0xFF, 8)), Poly(ONE), Has(v, 0x0100)) == Poly(Top(v, 0x1FF, 7))
  {
    hide MultiplyStep, Has, Top;
    Word8(v);
    PutWord(Top(v, 0xFF, 8), Has(v, 0x0100), Top(v, 0x1FF, 7));
  }

  lemma Put9(v: bv16)
    ensures MultiplyStep(Poly(Top(v, 0x1FF, 7)), Poly(ONE), Has(v, 0x0200)) == Poly(Top(v, 0x3FF, 6))
  {
    hide MultiplyStep, Has, Top;
    Word9(v);
    PutWord(Top(v, 0x1FF, 7), Has(v, 0x0200), Top(v, 0x3FF, 6));
  }

  lemma Put10(v: bv16)
    ensures MultiplyStep(Poly(Top(v, 0x3FF, 6)), Poly(ONE), Has(v, 0x0400)) == Poly(Top(v, 0x7FF, 5))
  {
    hide MultiplyStep, Has, Top;
    Word10(v);
    PutWord(Top(v, 0x3FF, 6), Has(v, 0x0400), Top(v, 0x7FF, 5));
  }

  lemma Put11(v: bv16)
    ensures MultiplyStep(Poly(Top(v, 0x7FF, 5)), Poly(ONE), Has(v, 0x0800)) == Poly(Top(v, 0xFFF, 4))
  {
    hide MultiplyStep, Has, Top;
    Word11(v);
    PutWord(Top(v, 0x7FF, 5), Has(v, 0x0800), Top(v, 0xFFF, 4));
  }

  lemma Put12(v: bv16)
    ensures MultiplyStep(Poly(Top(v, 0xFFF, 4)), Poly(ONE), Has(v, 0x1000)) == Poly(Top(v, 0x1FFF, 3))
  {
    hide MultiplyStep, Has, Top;
    Word12(v);
    PutWord(Top(v, 0xFFF, 4), Has(v, 0x1000), Top(v, 0x1FFF, 3));
  }

  lemma Put13(v: bv16)
    ensures MultiplyStep(Poly(Top(v, 0x1FFF, 3)), Poly(ONE), Has(v, 0x2000)) == Poly(Top(v, 0x3FFF, 2))
  {
    hide MultiplyStep, Has, Top;
    Word13(v);
    PutWord(Top(v, 0x1FFF, 3), Has(v, 0x2000), Top(v, 0x3FFF, 2));
  }

  lemma Put14(v: bv16)
    ensures MultiplyStep(Poly(Top(v, 0x3FFF, 2)), Poly(ONE), Has(v, 0x4000)) == Poly(Top(v, 0x7FFF, 1))
  {
    hide MultiplyStep, Has, Top;
    Word14(v);
    PutWord(Top(v, 0x3FFF, 2), Has(v, 0x4000), Top(v, 0x7FFF, 1));
  }

  lemma Put15(v: bv16)
    ensures MultiplyStep(Poly(Top(v, 0x7FFF, 1)), Poly(ONE), Has(v, 0x8000)) == Poly(Top(v, 0xFFFF, 0))
  {
    hide MultiplyStep, Has, Top;
    Word15(v);
    PutWord(Top(v, 0x7FFF, 1), Has(v, 0x8000), Top(v, 0xFFFF, 0));
  }

  lemma Word1(v: bv16)
    ensures var y := Top(v, 0x1, 15);
      y & 1 == 0 && Top(v, 0x3, 14) == (y >> 1) ^ if Has(v, 0x0002) then 0x8000 else 0
  {
  }

  lemma Word2(v: bv16)
    ensures var y := Top(v, 0x3, 14);
      y & 1 == 0 && Top(v, 0x7, 13) == (y >> 1) ^ if Has(v, 0x0004) then 0x8000 else 0
  {
  }

  lemma Word3(v: bv16)
    ensures var y := Top(v, 0x7, 13);
      y & 1 == 0 && Top(v, 0xF, 12) == (y >> 1) ^ if Has(v, 0x0008) then 0x8000 else 0
  {
  }

  lemma Word4(v: bv16)
    ensures var y := Top(v, 0xF, 12);
      y & 1 == 0 && Top(v, 0x1F, 11) == (y >> 1) ^ if Has(v, 0x0010) then 0x8000 else 0
  {
  }

  lemma Word5(v: bv16)
    ensures var y := Top(v, 0x1F, 11);
      y & 1 == 0 && Top(v, 0x3F, 10) == (y >> 1) ^ if Has(v, 0x0020) then 0x8000 else 0
  {
  }

  lemma Word6(v: bv16)
    ensures var y := Top(v, 0x3F, 10);
      y & 1 == 0 && Top(v, 0x7F, 9) == (y >> 1) ^ if Has(v, 0x0040) then 0x8000 else 0
  {
  }

  lemma Word7(v: bv16)
    ensures var y := Top(v, 0x7F, 9);
      y & 1 == 0 && Top(v, 0xFF, 8) == (y >> 1) ^ if Has(v, 0x0080) then 0x8000 else 0
  {
  }

  lemma Word8(v: bv16)
    ensures var y := Top(v, 0xFF, 8);
      y & 1 == 0 && Top(v, 0x1FF, 7) == (y >> 1) ^ if Has(v, 0x0100) then 0x8000 else 0
  {
  }

  lemma Word9(v: bv16)
    ensures var y := Top(v, 0x1FF, 7);
      y & 1 == 0 && Top(v, 0x3FF, 6) == (y >> 1) ^ if Has(v, 0x0200) then 0x8000 else 0
  {
  }

  lemma Word10(v: bv16)
    ensures var y := Top(v, 0x3FF, 6);
      y & 1 == 0 && Top(v, 0x7FF, 5) == (y >> 1) ^ if Has(v, 0x0400) then 0x8000 else 0
  {
  }

  lemma Word11(v: bv16)
    ensures var y := Top(v, 0x7FF, 5);
      y & 1 == 0 && Top(v, 0xFFF, 4) == (y >> 1) ^ if Has(v, 0x0800) then 0x8000 else 0
  {
  }

  lemma Word12(v: bv16)
    ensures var y := Top(v, 0xFFF, 4);
      y & 1 == 0 && Top(v, 0x1FFF, 3) == (y >> 1) ^ if Has(v, 0x1000) then 0x8000 else 0
  {
  }

  lemma Word13(v: bv16)
    ensures var y := Top(v, 0x1FFF, 3);
      y & 1 == 0 && Top(v, 0x3FFF, 2) == (y >> 1) ^ if Has(v, 0x2000) then 0x8000 else 0
  {
  }

  lemma Word14(v: bv16)
    ensures var y := Top(v, 0x3FFF, 2);
      y & 1 == 0 && Top(v, 0x7FFF, 1) == (y >> 1) ^ if Has(v, 0x4000) then 0x8000 else 0
  {
  }

  lemma Word15(v: bv16)
    ensures var y := Top(v, 0x7FFF, 1);
      y & 1 == 0 && Top(v, 0xFFFF, 0) == (y >> 1) ^ if Has(v, 0x8000) then 0x8000 else 0
  {
  }

  /** Shifting `v` by `m` multiplies it by x to the m. */
  lemma {:induction false} ShiftIsMultiply(v: bv16, m: nat)
    ensures Poly(Shift(v, m)) == Multiply(Coefficients(v), Poly(Shift(ONE, m)))
  {
    hide Multiply, ShiftBit, Coefficients;
    if m == 0 {
      MultiplyByOne(v);
    } else {
      ShiftIsMultiply(v, m - 1);
      MultiplyTurns(Coefficients(v), Poly(Shift(ONE, m - 1)));
    }
  }

  lemma {:induction false} ShiftAppend(x: bv16, m: nat, n: nat)
    ensures Shift(x, m + n) == Shift(Shift(x, m), n)
    decreases n
  {
    hide ShiftBit;
    if n > 0 {
      ShiftAppend(x, m, n - 1);
    }
  }

  /** The square, with the coefficients written out. */
  function Square(v: bv16): bv16 {
    var w := Poly(v);
    var h := Quarter(NOTHING, w, Has(v, 0x0001), Has(v, 0x0002), Has(v, 0x0004), Has(v, 0x0008));
    var i := Quarter(h, w, Has(v, 0x0010), Has(v, 0x0020), Has(v, 0x0040), Has(v, 0x0080));
    Upper(i, w, Has(v, 0x0100), Has(v, 0x0200), Has(v, 0x0400), Has(v, 0x0800),
          Has(v, 0x1000), Has(v, 0x2000), Has(v, 0x4000), Has(v, 0x8000)).bits
  }

  lemma ProductIs(c: seq<bool>, w: Poly)
    requires |c| == 16
    ensures var h := Quarter(NOTHING, w, c[0], c[1], c[2], c[3]);
      var i := Quarter(h, w, c[4], c[5], c[6], c[7]);
      Multiply(c, w) == Upper(i, w, c[8], c[9], c[10], c[11], c[12], c[13], c[14], c[15])
  {
    hide Quarter;
  }

  lemma SquareIsProduct(v: bv16)
    ensures Square(v) == Multiply(Coefficients(v), Poly(v)).bits
  {
    hide Quarter, Has, Upper, Coefficients, Multiply;
    LowerCoefficients(v);
    UpperCoefficients(v);
    ProductIs(Coefficients(v), Poly(v));
  }

  lemma LowerCoefficients(v: bv16)
    ensures var c := Coefficients(v);
      c[0] == Has(v, 0x0001) && c[1] == Has(v, 0x0002) && c[2] == Has(v, 0x0004) && c[3] == Has(v, 0x0008) &&
      c[4] == Has(v, 0x0010) && c[5] == Has(v, 0x0020) && c[6] == Has(v, 0x0040) && c[7] == Has(v, 0x0080)
  {
    hide Has;
  }

  lemma UpperCoefficients(v: bv16)
    ensures var c := Coefficients(v);
      c[8] == Has(v, 0x0100) && c[9] == Has(v, 0x0200) && c[10] == Has(v, 0x0400) && c[11] == Has(v, 0x0800) &&
      c[12] == Has(v, 0x1000) && c[13] == Has(v, 0x2000) && c[14] == Has(v, 0x4000) && c[15] == Has(v, 0x8000)
  {
    hide Has;
  }

  /** Square and multiply. */
  lemma Squared(n: nat)
    ensures Shift(ONE, 2 * n) == Square(Shift(ONE, n))
    ensures Shift(ONE, 2 * n + 1) == ShiftBit(Square(Shift(ONE, n)))
  {
    hide Multiply, ShiftBit, Shift, Coefficients, Square;
    SquareIsProduct(Shift(ONE, n));
    ShiftAppend(ONE, n, n);
    ShiftIsMultiply(Shift(ONE, n), n);
    NextShift(2 * n);
  }

  lemma NextShift(n: nat)
    ensures Shift(ONE, n + 1) == ShiftBit(Shift(ONE, n)) && Shift(ONE, 0) == ONE
  {
  }

  lemma SquaresA()
    ensures Square(0x4000) == 0x2000
    ensures Square(0x2000) == 0x0800
    ensures Square(0x1000) == 0x0200
  {
  }

  lemma SquaresB()
    ensures Square(0x0800) == 0x0080
    ensures Square(0x0200) == 0x0008
    ensures Square(0x0100) == 0x0002
  {
  }

  lemma SquaresC()
    ensures Square(0x0080) == 0xA001
    ensures Square(0x0040) == 0xD801
    ensures Square(0x0004) == 0xC019
  {
  }

  lemma SquaresD()
    ensures Square(0x0001) == 0x6001
    ensures Square(0xA001) == 0xE801
    ensures Square(0xD801) == 0xC281
  {
  }

  lemma SquaresE()
    ensures Square(0xC00D) == 0xC079
    ensures Square(0x9001) == 0xE201
    ensures Square(0xD401) == 0xC221
  {
  }

  lemma SquaresF()
    ensures Square(0xC281) == 0x6008
    ensures Square(0xC079) == 0xDFE1
    ensures Square(0xD101) == 0xC203
  {
  }

  lemma SquaresG()
    ensures Square(0xC221) == 0x0608
    ensures Square(0x3004) == 0xCA19
    ensures Square(0xDFE1) == 0x7CAA
  {
  }

  lemma SquaresH()
    ensures Square(0xC100) == 0xA002
    ensures Square(0x0608) == 0xC049
    ensures Square(0xCA19) == 0xC169
  {
  }

  lemma SquaresI()
    ensures Square(0x5001) == 0x4201
    ensures Square(0xC049) == 0xD861
    ensures Square(0xC169) == 0x1E62
  {
  }

  lemma SquaresJ()
    ensures Square(0x8101) == 0xE003
    ensures Square(0xD861) == 0xDC81
    ensures Square(0x0F31) == 0x672B
  {
  }

  lemma SquaresK()
    ensures Square(0xD000) == 0xA200
    ensures Square(0x672B) == 0x8E4C
    ensures Square(0x5100) == 0x2202
  {
  }

  lemma SquaresL()
    ensures Square(0x8E4C) == 0x58D1
    ensures Square(0x1101) == 0x6203
    ensures Square(0x9100) == 0x8202
  {
  }

  lemma SquaresM()
    ensures Square(0x4101) == 0x4003
  {
  }

  /** Where the exponent is odd, one more turn. */
  lemma OddTurns()
    ensures ShiftBit(0x2000) == 0x1000
    ensures ShiftBit(0x0200) == 0x0100
    ensures ShiftBit(0x0080) == 0x0040
    ensures ShiftBit(0x0008) == 0x0004
    ensures ShiftBit(0x0002) == 0x0001
    ensures ShiftBit(0xC019) == 0xC00D
    ensures ShiftBit(0x6001) == 0x9001
    ensures ShiftBit(0xE801) == 0xD401
    ensures ShiftBit(0xE201) == 0xD101
    ensures ShiftBit(0x6008) == 0x3004
    ensures ShiftBit(0xC203) == 0xC100
    ensures ShiftBit(0x7CAA) == 0x3E55
    ensures ShiftBit(0xA002) == 0x5001
    ensures ShiftBit(0x4201) == 0x8101
    ensures ShiftBit(0x1E62) == 0x0F31
    ensures ShiftBit(0xE003) == 0xD000
    ensures ShiftBit(0xDC81) == 0xCE41
    ensures ShiftBit(0xA200) == 0x5100
    ensures ShiftBit(0x2202) == 0x1101
    ensures ShiftBit(0x58D1) == 0x8C69
    ensures ShiftBit(0x6203) == 0x9100
    ensures ShiftBit(0x8202) == 0x4101
    ensures ShiftBit(0x4003) == 0x8000
  {
  }

  lemma PowerTo32767()
    ensures Shift(ONE, 32767) == 0x8000
  {
    hide Square, ShiftBit, Shift;
    SquaresA();
    SquaresB();
    SquaresD();
    SquaresE();
    SquaresF();
    SquaresH();
    SquaresI();
    SquaresJ();
    SquaresK();
    SquaresL();
    SquaresM();
    OddTurns();
    NextShift(0);
    FirstTurn();
    Squared(1);
    Squared(3);
    Squared(7);
    Squared(15);
    Squared(31);
    Squared(63);
    Squared(127);
    Squared(255);
    Squared(511);
    Squared(1023);
    Squared(2047);
    Squared(4095);
    Squared(8191);
    Squared(16383);
  }

  lemma PowerTo217()
    ensures Shift(ONE, 217) == 0x3E55
  {
    hide Square, ShiftBit, Shift;
    SquaresA();
    SquaresB();
    SquaresC();
    SquaresE();
    SquaresF();
    SquaresG();
    OddTurns();
    NextShift(0);
    FirstTurn();
    Squared(1);
    Squared(3);
    Squared(6);
    Squared(13);
    Squared(27);
    Squared(54);
    Squared(108);
  }

  lemma PowerTo1057()
    ensures Shift(ONE, 1057) == 0xCE41
  {
    hide Square, ShiftBit, Shift;
    SquaresA();
    SquaresB();
    SquaresC();
    SquaresD();
    SquaresE();
    SquaresG();
    SquaresH();
    SquaresI();
    SquaresJ();
    OddTurns();
    NextShift(0);
    FirstTurn();
    Squared(1);
    Squared(2);
    Squared(4);
    Squared(8);
    Squared(16);
    Squared(33);
    Squared(66);
    Squared(132);
    Squared(264);
    Squared(528);
  }

  lemma PowerTo4681()
    ensures Shift(ONE, 4681) == 0x8C69
  {
    hide Square, ShiftBit, Shift;
    SquaresA();
    SquaresB();
    SquaresC();
    SquaresD();
    SquaresF();
    SquaresG();
    SquaresH();
    SquaresI();
    SquaresJ();
    SquaresK();
    SquaresL();
    OddTurns();
    NextShift(0);
    FirstTurn();
    Squared(1);
    Squared(2);
    Squared(4);
    Squared(9);
    Squared(18);
    Squared(36);
    Squared(73);
    Squared(146);
    Squared(292);
    Squared(585);
    Squared(1170);
    Squared(2340);
  }

  lemma FirstTurn()
    ensures ShiftBit(ONE) == 0x4000
  {
  }

  // ---------------------------------------------------------------- the period of x

  predicate Period(n: nat) {
    Shift(ONE, n) == ONE
  }

  lemma PeriodRest(m: nat, n: nat)
    requires Period(m)
    ensures Period(m + n) <==> Period(n)
  {
    hide Shift;
    ShiftAppend(ONE, m, n);
  }

  lemma {:induction false} PeriodMultiple(m: nat, k: nat)
    requires Period(m)
    ensures Period(k * m)
    decreases k
  {
    hide Period;
    if k == 0 {
      NoTurn();
    } else {
      PeriodMultiple(m, k - 1);
      assert k * m == m + (k - 1) * m;
      PeriodRest(m, (k - 1) * m);
    }
  }

  lemma NoTurn()
    ensures Period(0)
  {
  }

  lemma PeriodRemainder(m: nat, n: nat)
    requires Period(m) && m > 0
    ensures Period(n) <==> Period(n % m)
  {
    hide Period;
    PeriodMultiple(m, n / m);
    assert n == n / m * m + n % m;
    PeriodRest(n / m * m, n % m);
  }

  /** 2 to the 15, less 1: 7 times 31 times 151. */
  const ORDER: nat := 32767

  lemma OrderIsPeriod()
    ensures Period(ORDER) && !Period(217) && !Period(1057) && !Period(4681)
  {
    hide Shift;
    PowerTo32767();
    PowerTo217();
    PowerTo1057();
    PowerTo4681();
  }

  /** The least period from 1 up to a known one. */
  lemma {:induction false} LeastPeriod(n: nat, known: nat) returns (m: nat)
    requires 0 < n <= known && Period(known)
    requires forall k :: 0 < k < n ==> !Period(k)
    ensures 0 < m <= known && Period(m) && forall k :: 0 < k < m ==> !Period(k)
    decreases known - n
  {
    hide Period;
    if n == known {
      m := known;
    } else {
      var found := PeriodOrNot(n);
      if found {
        m := n;
      } else {
        m := LeastPeriod(n + 1, known);
      }
    }
  }

  lemma PeriodOrNot(n: nat) returns (found: bool)
    ensures found <==> Period(n)
  {
    found := Period(n);
  }

  lemma SmallFactor(k: nat, q: nat)
    requires k * q == 32767 && 2 <= k <= 181
    ensures k == 7 || k == 31 || k == 151
  {
  }

  /** A proper divisor of the order divides one of its three largest proper divisors. */
  lemma ProperDivisor(m: nat, q: nat)
    requires m * q == ORDER && m < ORDER
    ensures 217 % m == 0 || 1057 % m == 0 || 4681 % m == 0
  {
    assert m > 0 && q > 1;
    if m <= 181 {
      if m > 1 {
        SmallFactor(m, q);
      }
    } else {
      if q > 181 {
        LargeProduct(m, q);
        assert false;
      }
      SmallFactor(q, m);
    }
  }

  lemma LargeProduct(m: nat, q: nat)
    requires m >= 182 && q >= 182
    ensures m * q > ORDER
  {
    assert m * q >= 182 * q;
  }

  /** The powers of x repeat with period 32767, and not earlier. */
  lemma PeriodIs(n: nat)
    ensures Period(n) <==> n % ORDER == 0
  {
    hide Period;
    OrderIsPeriod();
    NoTurn();
    var m := LeastPeriod(1, ORDER);
    PeriodRemainder(m, ORDER);
    assert ORDER % m == 0;
    if m < ORDER {
      var q := ORDER / m;
      assert m * q == ORDER;
      ProperDivisor(m, q);
      PeriodRemainder(m, 217);
      PeriodRemainder(m, 1057);
      PeriodRemainder(m, 4681);
      assert false;
    }
    PeriodRemainder(ORDER, n);
  }

  // ---------------------------------------------------------------- two flipped bits

  function Zeros(n: nat): (z: seq<bool>)
    ensures |z| == n && AllFalse(z)
  {
    seq(n, _ => false)
  }

  /** Feeding zeros turns the register. */
  lemma {:induction false} FeedZeros(x: bv16, n: nat)
    ensures Feed(Places(x), Zeros(n)) == Places(Shift(x, n))
    decreases n
  {
    hide Places, ShiftBit, FeedBit, Feed;
    if n == 0 {
      FeedNothing(Places(x));
    } else {
      FeedZeros(x, n - 1);
      assert Zeros(n) == Zeros(n - 1) + [false];
      FeedAppend(Places(x), Zeros(n - 1), [false]);
      FeedOne(Feed(Places(x), Zeros(n - 1)), false);
      PlacesOfShiftBit(Shift(x, n - 1));
    }
  }

  lemma FeedNothing(p: Reg)
    ensures Feed(p, []) == p
  {
  }

  lemma FeedOne(p: Reg, bit: bool)
    ensures Feed(p, [bit]) == FeedBit(p, bit)
  {
    assert [bit][1..] == [];
  }

  /** Two ones at a distance bring the register back to zero exactly if the distance is a period. */
  lemma TwoOnes(lead: nat, distance: nat, trail: nat)
    requires distance > 0
    ensures Feed(ZERO, Zeros(lead) + [true] + Zeros(distance - 1) + [true] + Zeros(trail)) == ZERO <==>
            distance % ORDER == 0
  {
    hide Feed, FeedBit, Places, Shift, ShiftBit, Zeros;
    var a, b, c := Zeros(lead), Zeros(distance - 1), Zeros(trail);
    FeedAppend(ZERO, a + [true] + b + [true], c);
    FeedAppend(ZERO, a + [true] + b, [true]);
    FeedAppend(ZERO, a + [true], b);
    FeedAppend(ZERO, a, [true]);
    FeedFalse(ZERO, a);
    FirstOne();
    FeedZeros(0xA001, distance - 1);
    var s := Shift(0xA001, distance - 1);
    SecondOne(s);
    FeedFalse(Feed(Places(s), [true]), c);
    Returns(distance);
    TurnAgain(distance);
  }

  lemma FirstOne()
    ensures Feed(ZERO, [true]) == Places(0xA001)
  {
    hide Feed;
    FeedOne(ZERO, true);
    PlacesOfGenerator();
    hide Places;
    assert FeedBit(ZERO, true) == GENERATOR;
  }

  lemma SecondOne(s: bv16)
    ensures Feed(Places(s), [true]) == ZERO <==> ShiftBit(s) == 0xA001
  {
    hide Feed, Places, ShiftBit;
    FeedOne(Places(s), true);
    PlacesOfShiftBit(s);
    PlacesOfGenerator();
    OneMoreBit(Places(s));
    XorIsZero(Places(ShiftBit(s)), GENERATOR);
    if Places(ShiftBit(s)) == Places(0xA001) {
      PlacesInjective(ShiftBit(s), 0xA001);
    }
  }

  lemma OneMoreBit(p: Reg)
    ensures FeedBit(p, true) == XorBits(FeedBit(p, false), GENERATOR)
  {
  }

  lemma XorIsZero(p: Reg, q: Reg)
    ensures XorBits(p, q) == ZERO <==> p == q
  {
    if XorBits(p, q) == ZERO {
      forall i | 0 <= i < 16 ensures p[i] == q[i] {
        ZeroIsClear(i);
        assert XorBits(p, q)[i] == ZERO[i];
      }
    }
  }

  lemma TurnAgain(distance: nat)
    requires distance > 0
    ensures Shift(0xA001, distance) == ShiftBit(Shift(0xA001, distance - 1))
  {
  }

  /** x to the 16 comes back after exactly the periods. */
  lemma Returns(distance: nat)
    ensures Shift(0xA001, distance) == 0xA001 <==> distance % ORDER == 0
  {
    hide Shift;
    PowerTo16();
    PeriodIs(distance);
    OrderIsPeriod();
    ShiftAppend(ONE, 16, distance);
    ShiftAppend(ONE, distance, 16);
    ShiftAppend(ONE, 16 + distance, ORDER - 16);
    ShiftAppend(ONE, 16, ORDER - 16);
    ShiftAppend(ONE, ORDER, distance);
  }

  lemma PowerTo16()
    ensures Shift(ONE, 16) == 0xA001
  {
    hide Square, ShiftBit, Shift;
    NextShift(0);
    FirstTurn();
    SquaresToSixteen();
    Squared(1);
    Squared(2);
    Squared(4);
    Squared(8);
  }

  lemma SquaresToSixteen()
    ensures Square(0x4000) == 0x2000 && Square(0x2000) == 0x0800
    ensures Square(0x0800) == 0x0080 && Square(0x0080) == 0xA001
  {
  }

  /** The two messages differ in these two bits and nowhere else. */
  ghost predicate DifferIn(s: seq<bool>, t: seq<bool>, i: nat, j: nat)
    requires |s| == |t|
  {
    i < j < |s| && forall k :: 0 <= k < |s| ==> (s[k] != t[k] <==> k == i || k == j)
  }

  lemma TwoBitPattern(s: seq<bool>, t: seq<bool>, i: nat, j: nat)
    requires |s| == |t| && DifferIn(s, t, i, j)
    ensures XorBits(s, t) == Zeros(i) + [true] + Zeros(j - i - 1) + [true] + Zeros(|s| - j - 1)
  {
  }

  lemma TwoBitsFed(s: seq<bool>, t: seq<bool>, i: nat, j: nat)
    requires |s| == |t| && DifferIn(s, t, i, j)
    ensures Feed(ZERO, XorBits(s, t)) == ZERO <==> (j - i) % ORDER == 0
  {
    hide Feed, Zeros, XorBits;
    TwoBitPattern(s, t, i, j);
    TwoOnes(i, j - i, |s| - j - 1);
  }

  lemma DifferenceDecides(f: seq<Octet>, g: seq<Octet>)
    requires |f| == |g| && Crc(CRC_INIT, f) == 0
    ensures Crc(CRC_INIT, g) == 0 <==> Feed(ZERO, XorBits(Bits(f), Bits(g))) == ZERO
  {
    hide Places, Bits, Feed, Crc;
    CrcIsFeed(CRC_INIT, f);
    CrcIsFeed(CRC_INIT, g);
    FeedDifference(Places(CRC_INIT), Places(CRC_INIT), Bits(f), Bits(g));
    XorIsZero(Places(CRC_INIT), Places(CRC_INIT));
    PlacesOfZero(Crc(CRC_INIT, f));
    PlacesOfZero(Crc(CRC_INIT, g));
    XorIsZero(ZERO, Places(Crc(CRC_INIT, g)));
  }

  /** Two flipped bits of an accepted frame go unseen by the CRC exactly if their distance is a multiple of
      32767 bits. */
  lemma TwoBitErrors(f: seq<Octet>, g: seq<Octet>, i: nat, j: nat)
    requires Accepted(f) && |g| == |f| && DifferIn(Bits(f), Bits(g), i, j)
    ensures Crc(CRC_INIT, g) == 0 <==> (j - i) % ORDER == 0
  {
    hide Bits, Feed, Crc, XorBits, DifferIn;
    DifferenceDecides(f, g);
    TwoBitsFed(Bits(f), Bits(g), i, j);
  }

  lemma {:induction false} NoneTrue(d: seq<bool>)
    requires CountTrue(d) == 0
    ensures AllFalse(d)
    decreases |d|
  {
    if d != [] {
      NoneTrue(d[1..]);
      assert forall k :: 1 <= k < |d| ==> d[k] == d[1..][k - 1];
    }
  }

  lemma {:induction false} FirstTrue(d: seq<bool>) returns (i: nat)
    requires CountTrue(d) > 0
    ensures i < |d| && d[i] && (forall k :: 0 <= k < i ==> !d[k]) && CountTrue(d[i + 1..]) == CountTrue(d) - 1
    decreases |d|
  {
    if d[0] {
      i := 0;
    } else {
      var rest := FirstTrue(d[1..]);
      i := rest + 1;
      assert d[1..][rest + 1..] == d[i + 1..];
      assert forall k :: 1 <= k < i ==> d[k] == d[1..][k - 1];
    }
  }

  /** Up to three flipped bits, anywhere, are rejected in every frame of at most 32767 bits. */
  lemma ThreeBitErrorsAreRejected(f: seq<Octet>, g: seq<Octet>)
    requires Accepted(f) && |g| == |f| && 8 * |f| <= ORDER
    requires 1 <= CountTrue(XorBits(Bits(f), Bits(g))) <= 3
    ensures !Accepted(g)
  {
    hide Bits, Crc, CountTrue, Feed;
    var d := XorBits(Bits(f), Bits(g));
    if CountTrue(d) == 2 {
      var i := FirstTrue(d);
      var e := d[i + 1..];
      var j := FirstTrue(e);
      NoneTrue(e[j + 1..]);
      TwoPlaces(d, e, i, j);
      assert forall k :: 0 <= k < |d| ==> d[k] == (Bits(f)[k] != Bits(g)[k]);
      TwoBitErrors(f, g, i, i + 1 + j);
    } else {
      OddErrorIsRejected(f, g);
    }
  }

  lemma TwoPlaces(d: seq<bool>, e: seq<bool>, i: nat, j: nat)
    requires i < |d| && d[i] && (forall k :: 0 <= k < i ==> !d[k])
    requires e == d[i + 1..] && j < |e| && e[j] && (forall k :: 0 <= k < j ==> !e[k]) && AllFalse(e[j + 1..])
    ensures forall k :: 0 <= k < |d| ==> (d[k] <==> k == i || k == i + 1 + j)
  {
    forall k | 0 <= k < |d| ensures d[k] <==> k == i || k == i + 1 + j {
      if k > i {
        assert d[k] == e[k - i - 1];
        if k > i + 1 + j {
          assert e[k - i - 1] == e[j + 1..][k - i - 2 - j];
        }
      }
    }
  }
}
