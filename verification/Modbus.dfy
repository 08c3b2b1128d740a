/** ser2mqtt/src/modbus.c: the bitwise CRC-16 of Modbus RTU and the frame check built on it
    (MODBUS over Serial Line Specification and Implementation Guide V1.02, section 6.2.2).

    The loops are methods over an array, proved against a fold over the frame on 16-bit words. The
    error-detection theorems then look at the register as the sixteen places of a linear feedback
    shift register fed one bit at a time in transmission order; they hold for frames of any length. */
module Modbus {

  type Octet = bv8

  const LEGAL_FUNCTIONS: set<Octet> := {0x01, 0x02, 0x03, 0x04, 0x05, 0x06, 0x0F, 0x10}

  // ---------------------------------------------------------------- the register

  /** One turn of the inner loop: shift right, and subtract the generator if a one fell out. */
  function ShiftBit(crc: bv16): bv16 {
    if crc & 1 == 1 then (crc >> 1) ^ 0xA001 else crc >> 1
  }

  function Shift(crc: bv16, n: nat): bv16 {
    if n == 0 then crc else ShiftBit(Shift(crc, n - 1))
  }

  function CrcByte(crc: bv16, b: Octet): bv16 {
    Shift(crc ^ (b as bv16), 8)
  }

  /** The register after the bytes of `data`, started from `crc`. */
  function Crc(crc: bv16, data: seq<Octet>): bv16
    decreases |data|
  {
    if data == [] then crc else CrcByte(Crc(crc, data[..|data| - 1]), data[|data| - 1])
  }

  const CRC_INIT: bv16 := 0xFFFF

  // ---------------------------------------------------------------- the code

  method CalculateCrc16(data: array<Octet>, length: nat) returns (crc: bv16)
    requires length <= data.Length
    ensures crc == Crc(CRC_INIT, data[..length])
  {
    crc := CRC_INIT;
    for i := 0 to length
      invariant crc == Crc(CRC_INIT, data[..i])
    {
      ghost var before := crc;
      crc := crc ^ (data[i] as bv16);
      for j := 0 to 8
        invariant crc == Shift(before ^ (data[i] as bv16), j)
      {
        if crc & 1 == 1 {
          crc := (crc >> 1) ^ 0xA001;
        } else {
          crc := crc >> 1;
        }
      }
      assert data[..i + 1][..i] == data[..i];
    }
  }

  /** The CRC as it is stored in a frame, low byte first. */
  function Stored(lo: Octet, hi: Octet): bv16 {
    ((hi as bv16) << 8) | (lo as bv16)
  }

  /** What a caller of the frame check relies on: long enough, a known function code, and the
      register run over the WHOLE frame, stored CRC included, ends at zero. */
  ghost predicate Accepted(frame: seq<Octet>) {
    |frame| >= 4 && frame[1] in LEGAL_FUNCTIONS && Crc(CRC_INIT, frame) == 0
  }

  method CheckModbusRtuFormat(data: array<Octet>, length: nat) returns (r: int)
    requires length <= data.Length
    ensures r == 0 || r == -1
    ensures r == 0 <==> Accepted(data[..length])
  {
    if length < 4 {
      return -1;
    }
    var functionCode := data[1];
    if functionCode != 0x01 && functionCode != 0x02 && functionCode != 0x03 && functionCode != 0x04 &&
       functionCode != 0x05 && functionCode != 0x06 && functionCode != 0x0F && functionCode != 0x10 {
      return -1;
    }
    var calculated := CalculateCrc16(data, length - 2);
    var received := ((data[length - 1] as bv16) << 8) | (data[length - 2] as bv16);
    assert received == Stored(data[length - 2], data[length - 1]);
    hide Crc, Stored;
    StoredCrcMatches(data[..length]);
    assert data[..length][..length - 2] == data[..length - 2];
    if calculated != received {
      return -1;
    }
    return 0;
  }

  // ---------------------------------------------------------------- the register, place by place

  const ZERO_PLACES: seq<bool> :=
    [false, false, false, false, false, false, false, false,
     false, false, false, false, false, false, false, false]

  const EIGHT_FALSE: seq<bool> := [false, false, false, false, false, false, false, false]

  /** The places of a 16-bit word, least significant first. */
  type Reg = p: seq<bool> | |p| == 16 witness ZERO_PLACES

  const ZERO: Reg := ZERO_PLACES

  /** The mask that keeps only place `i`. */
  function Mask(i: nat): bv16 {
    if i == 0 then 1 else Mask(i - 1) << 1
  }

  function Place(x: bv16, i: nat): bool {
    x & Mask(i) != 0
  }

  function Places(x: bv16): Reg {
    seq(16, i requires 0 <= i < 16 => Place(x, i))
  }

  /** The bits of a byte in the order a UART sends them. */
  function ByteBits(b: Octet): (bits: seq<bool>)
    ensures |bits| == 8
  {
    Places(b as bv16)[..8]
  }

  function Bits(data: seq<Octet>): (bits: seq<bool>)
    ensures |bits| == 8 * |data|
  {
    if data == [] then [] else Bits(data[..|data| - 1]) + ByteBits(data[|data| - 1])
  }

  function XorBits(s: seq<bool>, t: seq<bool>): (d: seq<bool>)
    requires |s| == |t|
    ensures |d| == |s|
  {
    seq(|s|, i requires 0 <= i < |s| => s[i] != t[i])
  }

  /** The generator 0xA001 occupies places 0, 13 and 15. */
  const GENERATOR: Reg :=
    [true, false, false, false, false, false, false, false,
     false, false, false, false, false, true, false, true]

  /** The feedback shift register: what falls out, added to the message bit, feeds the generator back. */
  function FeedBit(p: Reg, bit: bool): Reg {
    if p[0] != bit then XorBits(p[1..] + [false], GENERATOR) else p[1..] + [false]
  }

  function Feed(p: Reg, bits: seq<bool>): Reg
    decreases |bits|
  {
    if bits == [] then p else Feed(FeedBit(p, bits[0]), bits[1..])
  }

  lemma {:induction false} FeedAppend(p: Reg, s: seq<bool>, t: seq<bool>)
    ensures Feed(p, s + t) == Feed(Feed(p, s), t)
    decreases |s|
  {
    if s == [] {
      assert s + t == t;
    } else {
      FeedAppend(FeedBit(p, s[0]), s[1..], t);
      assert (s + t)[1..] == s[1..] + t;
    }
  }

  // ---------------------------------------------------------------- the words and the places agree

  ghost predicate IsMask(m: bv16) {
    m & (m - 1) == 0 && m != 0
  }

  lemma MaskBounds(i: nat)
    requires i < 16
    ensures IsMask(Mask(i))
    ensures i < 15 ==> Mask(i) & 0x8000 == 0
    ensures i < 8 ==> Mask(i) & 0xFF00 == 0 && Mask(i + 8) == Mask(i) << 8
  {
    LowestMasks();
    hide Mask;
    SixteenPlaces(i);
  }

  lemma SixteenPlaces(i: nat)
    requires i < 16
    ensures i == 0 || i == 1 || i == 2 || i == 3 || i == 4 || i == 5 || i == 6 || i == 7 ||
            i == 8 || i == 9 || i == 10 || i == 11 || i == 12 || i == 13 || i == 14 || i == 15
  {
  }

  lemma PlacesOfHalf(x: bv16)
    ensures Places(x >> 1) == Places(x)[1..] + [false]
  {
    forall j: nat | 1 <= j < 16 ensures Place(x, j) == Place(x >> 1, j - 1) {
      MaskBounds(j - 1);
      HalfMask(x, Mask(j - 1));
    }
    MaskBounds(15);
    TopOfHalf(x);
    hide Place;
  }

  lemma HalfMask(x: bv16, m: bv16)
    requires m & 0x8000 == 0
    ensures (x >> 1) & m != 0 <==> x & (m << 1) != 0
  {
  }

  lemma TopOfHalf(x: bv16)
    ensures !Place(x >> 1, 15)
  {
    assert Mask(15) == 0x8000;
  }

  /** One place of an exclusive or. */
  lemma XorMask(x: bv16, y: bv16, m: bv16)
    requires IsMask(m)
    ensures ((x ^ y) & m != 0) == ((x & m != 0) != (y & m != 0))
  {
  }

  lemma PlacesOfXor(x: bv16, y: bv16)
    ensures Places(x ^ y) == XorBits(Places(x), Places(y))
  {
    forall i: nat | i < 16 ensures Place(x ^ y, i) == (Place(x, i) != Place(y, i)) {
      MaskBounds(i);
      XorMask(x, y, Mask(i));
    }
    hide Place;
  }

  lemma PlacesOfGenerator()
    ensures Places(0xA001) == GENERATOR
  {
    LowestMasks();
    hide Mask;
    forall i: nat | i < 16 ensures Place(0xA001, i) == GENERATOR[i] {
      SixteenPlaces(i);
    }
    hide Place;
  }

  lemma PlacesOfZero(x: bv16)
    ensures Places(x) == ZERO <==> x == 0
  {
    if Places(x) == ZERO {
      forall i: nat | i < 16 ensures !Place(x, i) {
        assert Places(x)[i] == ZERO[i];
      }
      AllMasksClear(x);
    } else {
      ZeroPlaces(x);
    }
  }

  lemma ZeroPlaces(x: bv16)
    ensures x == 0 ==> Places(x) == ZERO
  {
    if x == 0 {
      forall i: nat | i < 16 ensures !Place(x, i) {
        ZeroMask(x, Mask(i));
      }
      hide Place;
      assert Places(x) == ZERO;
    }
  }

  lemma ZeroMask(x: bv16, m: bv16)
    ensures x == 0 ==> x & m == 0
  {
  }

  lemma AllMasksClear(x: bv16)
    requires forall i: nat :: i < 16 ==> !Place(x, i)
    ensures x == 0
  {
    LowestMasks();
    assert !Place(x, 0) && !Place(x, 1) && !Place(x, 2) && !Place(x, 3);
    assert !Place(x, 4) && !Place(x, 5) && !Place(x, 6) && !Place(x, 7);
    assert !Place(x, 8) && !Place(x, 9) && !Place(x, 10) && !Place(x, 11);
    assert !Place(x, 12) && !Place(x, 13) && !Place(x, 14) && !Place(x, 15);
    hide Mask;
  }

  lemma LowestMasks()
    ensures Mask(0) == 1 && Mask(1) == 2 && Mask(2) == 4 && Mask(3) == 8
    ensures Mask(4) == 0x10 && Mask(5) == 0x20 && Mask(6) == 0x40 && Mask(7) == 0x80
    ensures Mask(8) == 0x100 && Mask(9) == 0x200 && Mask(10) == 0x400 && Mask(11) == 0x800
    ensures Mask(12) == 0x1000 && Mask(13) == 0x2000 && Mask(14) == 0x4000 && Mask(15) == 0x8000
  {
  }

  lemma PlacesOfOctet(b: Octet)
    ensures Places(b as bv16) == ByteBits(b) + EIGHT_FALSE
  {
    var w := b as bv16;
    forall i: nat | 8 <= i < 16 ensures !Place(w, i) {
      MaskBounds(i - 8);
      OctetMask(b, Mask(i - 8));
    }
    hide Place;
  }

  lemma OctetMask(b: Octet, m: bv16)
    requires m & 0xFF00 == 0
    ensures (b as bv16) & (m << 8) == 0
  {
  }

  lemma PlacesOfShiftBit(x: bv16)
    ensures Places(ShiftBit(x)) == FeedBit(Places(x), false)
  {
    PlacesOfHalf(x);
    PlacesOfXor(x >> 1, 0xA001);
    PlacesOfGenerator();
    LowPlace(x);
    hide Places;
  }

  lemma LowPlace(x: bv16)
    ensures Places(x)[0] <==> x & 1 == 1
  {
    assert Mask(0) == 1;
    assert x & 1 != 0 <==> x & 1 == 1;
  }

  /** A place of a word that is already in the register counts as a message bit. */
  lemma Peel(p: Reg, w: Reg)
    ensures FeedBit(XorBits(p, w), false) == XorBits(FeedBit(p, w[0]), w[1..] + [false])
  {
  }

  lemma {:induction false} ShiftIsFeed(x: bv16, p: Reg, w: Reg, n: nat)
    requires n <= 16 && Places(x) == XorBits(p, w)
    ensures Places(Shift(x, n)) == XorBits(Feed(p, w[..n]), w[n..] + seq(n, _ => false))
  {
    hide Places, ShiftBit, FeedBit;
    if n == 0 {
      assert w[0..] + seq(0, _ => false) == w;
    } else {
      ShiftIsFeed(x, p, w, n - 1);
      var v := w[n - 1..] + seq(n - 1, _ => false);
      PlacesOfShiftBit(Shift(x, n - 1));
      Peel(Feed(p, w[..n - 1]), v);
      assert v[1..] + [false] == w[n..] + seq(n, _ => false);
      assert w[..n] == w[..n - 1] + [w[n - 1]];
      FeedAppend(p, w[..n - 1], [w[n - 1]]);
    }
  }

  /** Eight turns of the inner loop are the eight bits of the byte. */
  lemma CrcByteIsFeed(crc: bv16, b: Octet)
    ensures Places(CrcByte(crc, b)) == Feed(Places(crc), ByteBits(b))
  {
    hide Places, ByteBits, Shift, FeedBit, Feed, XorBits;
    PlacesOfXor(crc, b as bv16);
    PlacesOfOctet(b);
    OctetInRegister(crc ^ (b as bv16), Places(crc), ByteBits(b));
  }

  lemma OctetInRegister(x: bv16, p: Reg, bits: seq<bool>)
    requires |bits| == 8 && Places(x) == XorBits(p, bits + EIGHT_FALSE)
    ensures Places(Shift(x, 8)) == Feed(p, bits)
  {
    hide Places, Shift, FeedBit, Feed;
    var w: Reg := bits + EIGHT_FALSE;
    ShiftIsFeed(x, p, w, 8);
    assert w[..8] == bits;
    XorClear(Feed(p, bits), w[8..] + seq(8, _ => false));
  }

  lemma XorClear(p: seq<bool>, q: seq<bool>)
    requires |p| == |q| && AllFalse(q)
    ensures XorBits(p, q) == p
  {
  }

  lemma {:induction false} CrcIsFeed(crc: bv16, data: seq<Octet>)
    ensures Places(Crc(crc, data)) == Feed(Places(crc), Bits(data))
    decreases |data|
  {
    hide Places, ByteBits, CrcByte;
    if data != [] {
      CrcIsFeed(crc, data[..|data| - 1]);
      FeedAppend(Places(crc), Bits(data[..|data| - 1]), ByteBits(data[|data| - 1]));
      CrcByteIsFeed(Crc(crc, data[..|data| - 1]), data[|data| - 1]);
    }
  }

  // ---------------------------------------------------------------- running the register backwards

  /** Sixteen or fewer bits bring the register to zero exactly when they are its own low places and
      the others are clear. */
  lemma {:induction false} FeedToZero(p: Reg, bits: seq<bool>)
    requires |bits| <= 16
    ensures Feed(p, bits) == ZERO <==> p == bits + seq(16 - |bits|, _ => false)
    decreases |bits|
  {
    if bits == [] {
      assert [] + seq(16, _ => false) == ZERO;
    } else {
      var rest := bits[1..] + seq(17 - |bits|, _ => false);
      var own := bits + seq(16 - |bits|, _ => false);
      FeedToZero(FeedBit(p, bits[0]), bits[1..]);
      assert own[1..] + [false] == rest && own[0] == bits[0] && |own| == 16;
      ShiftsTo(p, own);
    }
  }

  /** Only the register that starts with the bit is shifted without the generator coming in, which would
      set the last place. */
  lemma ShiftsTo(p: Reg, own: Reg)
    ensures FeedBit(p, own[0]) == own[1..] + [false] <==> p == own
  {
    var rest := own[1..] + [false];
    if FeedBit(p, own[0]) == rest {
      assert !FeedBit(p, own[0])[15];
      assert FeedBit(p, own[0]) == p[1..] + [false];
      assert p[1..] == rest[..15] == own[1..];
      assert p == [p[0]] + p[1..];
      assert own == [own[0]] + own[1..];
    }
  }

  lemma PlacesOfTwoOctets(lo: Octet, hi: Octet)
    ensures Places(Stored(lo, hi)) == ByteBits(lo) + ByteBits(hi)
  {
    hide Stored, Place;
    forall i: nat | i < 8
      ensures Place(Stored(lo, hi), i) == Place(lo as bv16, i)
    {
      PlaceOfStored(lo, hi, i);
    }
    forall j: nat | 8 <= j < 16
      ensures Place(Stored(lo, hi), j) == Place(hi as bv16, j - 8)
    {
      PlaceOfStored(lo, hi, j - 8);
    }
  }

  lemma PlaceOfStored(lo: Octet, hi: Octet, i: nat)
    requires i < 8
    ensures Place(Stored(lo, hi), i) == Place(lo as bv16, i)
    ensures Place(Stored(lo, hi), i + 8) == Place(hi as bv16, i)
  {
    MaskBounds(i);
    StoredMask(lo, hi, Mask(i));
    hide Mask, Stored;
  }

  lemma StoredMask(lo: Octet, hi: Octet, m: bv16)
    requires m & 0xFF00 == 0
    ensures Stored(lo, hi) & m == (lo as bv16) & m
    ensures Stored(lo, hi) & (m << 8) != 0 <==> (hi as bv16) & m != 0
  {
  }

  lemma PlacesInjective(x: bv16, y: bv16)
    requires Places(x) == Places(y)
    ensures x == y
  {
    PlacesOfXor(x, y);
    PlacesOfZero(x ^ y);
    assert XorBits(Places(x), Places(y)) == ZERO;
    XorZeroEqual(x, y);
  }

  lemma XorZeroEqual(x: bv16, y: bv16)
    ensures x ^ y == 0 <==> x == y
  {
  }

  /** The residue: the register run over a whole frame is zero exactly when the stored CRC matches. */
  lemma StoredCrcMatches(frame: seq<Octet>)
    requires |frame| >= 2
    ensures var n := |frame|;
      Crc(CRC_INIT, frame) == 0 <==>
      Crc(CRC_INIT, frame[..n - 2]) == Stored(frame[n - 2], frame[n - 1])
  {
    hide Crc, CrcByte, Stored;
    var n := |frame|;
    CrcOfLastTwo(CRC_INIT, frame);
    ResidueIsZero(Crc(CRC_INIT, frame[..n - 2]), frame[n - 2], frame[n - 1]);
  }

  lemma CrcOfLastTwo(crc: bv16, frame: seq<Octet>)
    requires |frame| >= 2
    ensures var n := |frame|;
      Crc(crc, frame) == CrcByte(CrcByte(Crc(crc, frame[..n - 2]), frame[n - 2]), frame[n - 1])
  {
    hide CrcByte;
    var n := |frame|;
    assert frame[..n - 1][..n - 2] == frame[..n - 2];
  }

  /** Two more bytes bring the register to zero only if they are its own low and high byte. */
  lemma ResidueIsZero(c: bv16, lo: Octet, hi: Octet)
    ensures CrcByte(CrcByte(c, lo), hi) == 0 <==> c == Stored(lo, hi)
  {
    hide Places, ByteBits, CrcByte, Feed, Stored;
    var two := ByteBits(lo) + ByteBits(hi);
    PlacesOfTwoOctets(lo, hi);
    CrcByteIsFeed(c, lo);
    CrcByteIsFeed(CrcByte(c, lo), hi);
    FeedAppend(Places(c), ByteBits(lo), ByteBits(hi));
    PlacesOfZero(CrcByte(CrcByte(c, lo), hi));
    FeedToZero(Places(c), two);
    assert two + seq(0, _ => false) == two;
    if Places(c) == two {
      PlacesInjective(c, Stored(lo, hi));
    }
  }

  /** A sender who appends the CRC low byte first is accepted, and no other pair of bytes is. */
  lemma AppendedCrcIsAccepted(body: seq<Octet>, lo: Octet, hi: Octet)
    requires |body| >= 2 && body[1] in LEGAL_FUNCTIONS
    ensures Accepted(body + [lo, hi]) <==> Crc(CRC_INIT, body) == Stored(lo, hi)
  {
    var frame := body + [lo, hi];
    hide Crc, Stored;
    StoredCrcMatches(frame);
    assert frame[..|frame| - 2] == body;
  }

  // ---------------------------------------------------------------- the check without the word register

  const ONES: Reg :=
    [true, true, true, true, true, true, true, true,
     true, true, true, true, true, true, true, true]

  lemma PlacesOfOnes()
    ensures Places(0xFFFF) == ONES
  {
    LowestMasks();
    hide Mask;
    forall i: nat | i < 16 ensures Place(0xFFFF, i) {
      SixteenPlaces(i);
    }
    hide Place;
  }

  /** The CRC of `data` is what a shift register holds that starts with sixteen ones and is fed the bits. */
  lemma CrcStartsWithOnes(data: seq<Octet>)
    ensures Places(Crc(CRC_INIT, data)) == Feed(ONES, Bits(data))
  {
    hide Places, Crc, Feed, Bits;
    PlacesOfOnes();
    CrcIsFeed(CRC_INIT, data);
  }

  /** Acceptance without the word register: a frame passes exactly if it is at least four bytes long, has
      one of the eight function codes, and drives a register of sixteen ones to zero. */
  lemma AcceptedMeans(frame: seq<Octet>)
    ensures Accepted(frame) <==>
            |frame| >= 4 &&
            (1 <= frame[1] <= 6 || frame[1] == 15 || frame[1] == 16) &&
            Feed(ONES, Bits(frame)) == ZERO
  {
    hide Places, Crc, Feed, Bits;
    CrcStartsWithOnes(frame);
    PlacesOfZero(Crc(CRC_INIT, frame));
    if |frame| >= 4 {
      FunctionCodes(frame[1]);
    }
  }

  lemma FunctionCodes(code: Octet)
    ensures code in LEGAL_FUNCTIONS <==> 1 <= code <= 6 || code == 15 || code == 16
  {
  }

  lemma CrcOneMore(data: seq<Octet>, crc: bv16, b: Octet, next: bv16)
    requires Crc(CRC_INIT, data) == crc && CrcByte(crc, b) == next
    ensures Crc(CRC_INIT, data + [b]) == next
  {
    hide CrcByte;
    assert (data + [b])[..|data|] == data;
  }

  /** The eight turns for one byte, written out. */
  lemma EightTurns(crc: bv16, b: Octet)
    ensures CrcByte(crc, b) ==
            ShiftBit(ShiftBit(ShiftBit(ShiftBit(ShiftBit(ShiftBit(ShiftBit(ShiftBit(crc ^ (b as bv16)))))))))
  {
    hide ShiftBit;
    var x := crc ^ (b as bv16);
    assert Shift(x, 0) == x;
    assert Shift(x, 1) == ShiftBit(x);
    assert Shift(x, 2) == ShiftBit(ShiftBit(x));
    assert Shift(x, 4) == ShiftBit(ShiftBit(Shift(x, 2)));
    assert Shift(x, 6) == ShiftBit(ShiftBit(Shift(x, 4)));
    assert Shift(x, 8) == ShiftBit(ShiftBit(Shift(x, 6)));
  }

  lemma RequestBytesA()
    ensures CrcByte(0xFFFF, 0x01) == 0x807E
    ensures CrcByte(0x807E, 0x03) == 0x2140
    ensures CrcByte(0x2140, 0x00) == 0xF020
  {
    EightTurns(0xFFFF, 0x01);
    EightTurns(0x807E, 0x03);
    EightTurns(0x2140, 0x00);
    hide CrcByte;
  }

  lemma RequestBytesB()
    ensures CrcByte(0xF020, 0x00) == 0xD8F1
    ensures CrcByte(0xD8F1, 0x00) == 0x8419
    ensures CrcByte(0x8419, 0x0A) == 0xCDC5
  {
    EightTurns(0xF020, 0x00);
    EightTurns(0xD8F1, 0x00);
    EightTurns(0x8419, 0x0A);
    hide CrcByte;
  }

  lemma RequestBytesC()
    ensures CrcByte(0xCDC5, 0xC5) == 0x00CD
    ensures CrcByte(0x00CD, 0xCD) == 0x0000
  {
    EightTurns(0xCDC5, 0xC5);
    EightTurns(0x00CD, 0xCD);
    hide CrcByte;
  }

  lemma CrcOfNothing()
    ensures Crc(CRC_INIT, []) == 0xFFFF
  {
  }

  /** The request to read ten holding registers of slave 1, as it stands in every Modbus manual. */
  lemma StandardRequestIsAccepted()
    ensures Accepted([0x01, 0x03, 0x00, 0x00, 0x00, 0x0A, 0xC5, 0xCD])
  {
    hide Crc, CrcByte;
    RequestBytesA();
    RequestBytesB();
    RequestBytesC();
    CrcOfNothing();
    CrcOneMore([], 0xFFFF, 0x01, 0x807E);
    var d1: seq<Octet> := [0x01];
    assert [] + [0x01] == d1;
    CrcOneMore(d1, 0x807E, 0x03, 0x2140);
    var d2 := d1 + [0x03];
    CrcOneMore(d2, 0x2140, 0x00, 0xF020);
    var d3 := d2 + [0x00];
    CrcOneMore(d3, 0xF020, 0x00, 0xD8F1);
    var d4 := d3 + [0x00];
    CrcOneMore(d4, 0xD8F1, 0x00, 0x8419);
    var d5 := d4 + [0x00];
    CrcOneMore(d5, 0x8419, 0x0A, 0xCDC5);
    var d6 := d5 + [0x0A];
    CrcOneMore(d6, 0xCDC5, 0xC5, 0x00CD);
    var d7 := d6 + [0xC5];
    CrcOneMore(d7, 0x00CD, 0xCD, 0x0000);
    var d8 := d7 + [0xCD];
    assert d8 == [0x01, 0x03, 0x00, 0x00, 0x00, 0x0A, 0xC5, 0xCD];
  }

  lemma CheckBytesA()
    ensures CrcByte(0xFFFF, 0x31) == 0x947E
    ensures CrcByte(0x947E, 0x32) == 0xF595
    ensures CrcByte(0xF595, 0x33) == 0x7A75
  {
    EightTurns(0xFFFF, 0x31);
    EightTurns(0x947E, 0x32);
    EightTurns(0xF595, 0x33);
    hide CrcByte;
  }

  lemma CheckBytesB()
    ensures CrcByte(0x7A75, 0x34) == 0x30BA
    ensures CrcByte(0x30BA, 0x35) == 0xA471
    ensures CrcByte(0xA471, 0x36) == 0x32E4
  {
    EightTurns(0x7A75, 0x34);
    EightTurns(0x30BA, 0x35);
    EightTurns(0xA471, 0x36);
    hide CrcByte;
  }

  lemma CheckBytesC()
    ensures CrcByte(0x32E4, 0x37) == 0x9D73
    ensures CrcByte(0x9D73, 0x38) == 0x37DD
    ensures CrcByte(0x37DD, 0x39) == 0x4B37
  {
    EightTurns(0x32E4, 0x37);
    EightTurns(0x9D73, 0x38);
    EightTurns(0x37DD, 0x39);
    hide CrcByte;
  }

  /** The published check value of CRC-16/MODBUS, for the digits 1 to 9. */
  lemma CheckValue()
    ensures Crc(CRC_INIT, [0x31, 0x32, 0x33, 0x34, 0x35, 0x36, 0x37, 0x38, 0x39]) == 0x4B37
  {
    hide Crc, CrcByte;
    CheckBytesA();
    CheckBytesB();
    CheckBytesC();
    CrcOfNothing();
    CrcOneMore([], 0xFFFF, 0x31, 0x947E);
    var d1: seq<Octet> := [0x31];
    assert [] + [0x31] == d1;
    CrcOneMore(d1, 0x947E, 0x32, 0xF595);
    var d2 := d1 + [0x32];
    CrcOneMore(d2, 0xF595, 0x33, 0x7A75);
    var d3 := d2 + [0x33];
    CrcOneMore(d3, 0x7A75, 0x34, 0x30BA);
    var d4 := d3 + [0x34];
    CrcOneMore(d4, 0x30BA, 0x35, 0xA471);
    var d5 := d4 + [0x35];
    CrcOneMore(d5, 0xA471, 0x36, 0x32E4);
    var d6 := d5 + [0x36];
    CrcOneMore(d6, 0x32E4, 0x37, 0x9D73);
    var d7 := d6 + [0x37];
    CrcOneMore(d7, 0x9D73, 0x38, 0x37DD);
    var d8 := d7 + [0x38];
    CrcOneMore(d8, 0x37DD, 0x39, 0x4B37);
    var d9 := d8 + [0x39];
    assert d9 == [0x31, 0x32, 0x33, 0x34, 0x35, 0x36, 0x37, 0x38, 0x39];
  }

  // ---------------------------------------------------------------- what the check detects

  lemma FeedBitDifference(p: Reg, q: Reg, s: bool, t: bool)
    ensures XorBits(FeedBit(p, s), FeedBit(q, t)) == FeedBit(XorBits(p, q), s != t)
  {
  }

  /** The register of a corrupted message differs by the register of the error pattern alone. */
  lemma {:induction false} FeedDifference(p: Reg, q: Reg, s: seq<bool>, t: seq<bool>)
    requires |s| == |t|
    ensures XorBits(Feed(p, s), Feed(q, t)) == Feed(XorBits(p, q), XorBits(s, t))
    decreases |s|
  {
    hide FeedBit;
    if s != [] {
      FeedDifference(FeedBit(p, s[0]), FeedBit(q, t[0]), s[1..], t[1..]);
      assert XorBits(s, t)[1..] == XorBits(s[1..], t[1..]);
      FeedBitDifference(p, q, s[0], t[0]);
    }
  }

  ghost predicate AllFalse(bits: seq<bool>) {
    forall i :: 0 <= i < |bits| ==> !bits[i]
  }

  lemma {:induction false} FeedFalse(p: Reg, bits: seq<bool>)
    requires AllFalse(bits)
    ensures Feed(p, bits) == ZERO <==> p == ZERO
    decreases |bits|
  {
    if bits != [] {
      FeedFalse(FeedBit(p, false), bits[1..]);
      FeedToZero(p, [false]);
      assert [false] + seq(15, _ => false) == ZERO;
      assert Feed(p, [false]) == FeedBit(p, false);
    }
  }

  /** No error pattern of at most sixteen consecutive bits leaves the register unchanged, wherever it
      starts and however long the message is. */
  lemma BurstIsSeen(lead: seq<bool>, burst: seq<bool>, trail: seq<bool>)
    requires AllFalse(lead) && |burst| <= 16 && !AllFalse(burst) && AllFalse(trail)
    ensures Feed(ZERO, lead + burst + trail) != ZERO
  {
    hide Feed, FeedBit;
    FeedAppend(ZERO, lead + burst, trail);
    FeedAppend(ZERO, lead, burst);
    FeedFalse(ZERO, lead);
    FeedFalse(Feed(ZERO, burst), trail);
    FeedToZero(ZERO, burst);
    var i :| 0 <= i < |burst| && burst[i];
    ZeroIsClear(i);
    assert (burst + seq(16 - |burst|, _ => false))[i];
  }

  lemma ZeroIsClear(i: nat)
    requires i < 16
    ensures !ZERO[i]
  {
  }

  /** Error detection: if an accepted frame is changed only inside some window of sixteen consecutive
      bits, it is rejected. */
  lemma BurstIsRejected(f: seq<Octet>, g: seq<Octet>, start: nat, length: nat)
    requires Accepted(f) && |g| == |f| && f != g
    requires length <= 16 && start + length <= 8 * |f|
    requires forall i :: 0 <= i < 8 * |f| && !(start <= i < start + length) ==> Bits(f)[i] == Bits(g)[i]
    ensures !Accepted(g)
  {
    hide Bits, Crc, Feed;
    RegisterDifference(f, g);
    var d := XorBits(Bits(f), Bits(g));
    DifferenceIsBurst(f, g, start, length);
    BurstIsSeen(d[..start], d[start..start + length], d[start + length..]);
  }

  lemma DifferenceIsBurst(f: seq<Octet>, g: seq<Octet>, start: nat, length: nat)
    requires |g| == |f| && f != g && start + length <= 8 * |f|
    requires forall i :: 0 <= i < 8 * |f| && !(start <= i < start + length) ==> Bits(f)[i] == Bits(g)[i]
    ensures var d := XorBits(Bits(f), Bits(g));
      var lead, burst, trail := d[..start], d[start..start + length], d[start + length..];
      d == lead + burst + trail && AllFalse(lead) && !AllFalse(burst) && AllFalse(trail)
  {
    hide Bits;
    if Bits(f) == Bits(g) {
      BitsInjective(f, g);
    }
    WindowOfDifference(Bits(f), Bits(g), start, length);
  }

  lemma WindowOfDifference(s: seq<bool>, t: seq<bool>, start: nat, length: nat)
    requires |s| == |t| && s != t && start + length <= |s|
    requires forall i :: 0 <= i < |s| && !(start <= i < start + length) ==> s[i] == t[i]
    ensures var d := XorBits(s, t);
      var lead, burst, trail := d[..start], d[start..start + length], d[start + length..];
      d == lead + burst + trail && AllFalse(lead) && !AllFalse(burst) && AllFalse(trail)
  {
    hide XorBits, AllFalse;
    var end := start + length;
    assert s[..start] == t[..start] && s[end..] == t[end..];
    SplitAtTwo(s, start, end);
    SplitAtTwo(t, start, end);
    SplitAtTwo(XorBits(s, t), start, end);
    XorWindow(s, t, 0, start);
    XorWindow(s, t, start, end);
    XorWindow(s, t, end, |s|);
    NoDifference(s[..start]);
    NoDifference(s[end..]);
    SomeDifference(s[start..end], t[start..end]);
  }

  lemma SplitAtTwo(s: seq<bool>, i: nat, j: nat)
    requires i <= j <= |s|
    ensures s == s[..i] + s[i..j] + s[j..] && s[0..i] == s[..i] && s[j..|s|] == s[j..]
  {
  }

  lemma XorWindow(s: seq<bool>, t: seq<bool>, i: nat, j: nat)
    requires |s| == |t| && i <= j <= |s|
    ensures XorBits(s, t)[i..j] == XorBits(s[i..j], t[i..j])
  {
  }

  lemma SomeDifference(s: seq<bool>, t: seq<bool>)
    requires |s| == |t| && s != t
    ensures !AllFalse(XorBits(s, t))
  {
    var i :| 0 <= i < |s| && s[i] != t[i];
    assert XorBits(s, t)[i];
  }

  lemma NoDifference(s: seq<bool>)
    ensures AllFalse(XorBits(s, s))
  {
  }

  lemma RegisterDifference(f: seq<Octet>, g: seq<Octet>)
    requires |f| == |g|
    ensures Crc(CRC_INIT, f) == 0 == Crc(CRC_INIT, g) ==> Feed(ZERO, XorBits(Bits(f), Bits(g))) == ZERO
  {
    hide Places, Bits, Feed, Crc;
    CrcIsFeed(CRC_INIT, f);
    CrcIsFeed(CRC_INIT, g);
    FeedDifference(Places(CRC_INIT), Places(CRC_INIT), Bits(f), Bits(g));
    assert XorBits(Places(CRC_INIT), Places(CRC_INIT)) == ZERO;
    PlacesOfZero(Crc(CRC_INIT, f));
    PlacesOfZero(Crc(CRC_INIT, g));
    assert XorBits(ZERO, ZERO) == ZERO;
  }

  lemma ByteBitsInjective(a: Octet, b: Octet)
    requires ByteBits(a) == ByteBits(b)
    ensures a == b
  {
    PlacesOfOctet(a);
    PlacesOfOctet(b);
    PlacesInjective(a as bv16, b as bv16);
    OctetWidens(a, b);
  }

  lemma OctetWidens(a: Octet, b: Octet)
    ensures a as bv16 == b as bv16 ==> a == b
  {
  }

  lemma {:induction false} BitsOfByte(f: seq<Octet>, k: nat)
    requires k < |f|
    ensures Bits(f)[8 * k..8 * k + 8] == ByteBits(f[k])
    decreases |f|
  {
    hide ByteBits;
    var n := |f| - 1;
    if k < n {
      BitsOfByte(f[..n], k);
      assert Bits(f)[8 * k..8 * k + 8] == Bits(f[..n])[8 * k..8 * k + 8];
    }
  }

  lemma BitsInjective(f: seq<Octet>, g: seq<Octet>)
    requires |f| == |g| && Bits(f) == Bits(g)
    ensures f == g
  {
    forall k | 0 <= k < |f| ensures f[k] == g[k] {
      BitsOfByte(f, k);
      BitsOfByte(g, k);
      ByteBitsInjective(f[k], g[k]);
    }
  }

  /** In bytes: a change confined to two neighbouring bytes is rejected. */
  lemma TwoByteCorruptionIsRejected(f: seq<Octet>, g: seq<Octet>, k: nat)
    requires Accepted(f) && |g| == |f| && f != g && k + 1 < |f|
    requires forall i :: 0 <= i < |f| && i != k && i != k + 1 ==> f[i] == g[i]
    ensures !Accepted(g)
  {
    forall i | 0 <= i < 8 * |f| && !(8 * k <= i < 8 * k + 16)
      ensures Bits(f)[i] == Bits(g)[i]
    {
      BitAt(f, i / 8, i % 8);
      BitAt(g, i / 8, i % 8);
    }
    BurstIsRejected(f, g, 8 * k, 16);
  }

  lemma BitAt(f: seq<Octet>, k: nat, j: nat)
    requires k < |f| && j < 8
    ensures Bits(f)[8 * k + j] == ByteBits(f[k])[j]
  {
    BitsOfByte(f, k);
    assert Bits(f)[8 * k..8 * k + 8][j] == Bits(f)[8 * k + j];
  }

  // ---------------------------------------------------------------- odd numbers of flipped bits

  function CountTrue(bits: seq<bool>): nat {
    if bits == [] then 0 else (if bits[0] then 1 else 0) + CountTrue(bits[1..])
  }

  lemma {:induction false} CountXor(s: seq<bool>, t: seq<bool>)
    requires |s| == |t|
    ensures (CountTrue(XorBits(s, t)) + CountTrue(s) + CountTrue(t)) % 2 == 0
    decreases |s|
  {
    if s != [] {
      CountXor(s[1..], t[1..]);
      assert XorBits(s, t)[1..] == XorBits(s[1..], t[1..]);
    }
  }

  lemma {:induction false} CountAppend(s: seq<bool>, t: seq<bool>)
    ensures CountTrue(s + t) == CountTrue(s) + CountTrue(t)
    decreases |s|
  {
    if s == [] {
      assert s + t == t;
    } else {
      CountAppend(s[1..], t);
      assert (s + t)[1..] == s[1..] + t;
    }
  }

  lemma {:induction false} CountAllFalse(s: seq<bool>)
    requires AllFalse(s)
    ensures CountTrue(s) == 0
    decreases |s|
  {
    if s != [] {
      CountAllFalse(s[1..]);
    }
  }

  lemma CountOne(b: bool)
    ensures CountTrue([b]) == if b then 1 else 0
  {
    assert [b][1..] == [];
  }

  lemma GeneratorIsOdd()
    ensures CountTrue(GENERATOR) == 3
  {
    var middle := GENERATOR[1..13];
    CountAllFalse(middle);
    assert GENERATOR == [true] + (middle + ([true] + ([false] + [true])));
    hide CountTrue;
    CountOne(true);
    CountOne(false);
    CountAppend([true], middle + ([true] + ([false] + [true])));
    CountAppend(middle, [true] + ([false] + [true]));
    CountAppend([true], [false] + [true]);
    CountAppend([false], [true]);
  }

  lemma CountFeedBit(p: Reg, bit: bool)
    ensures (CountTrue(FeedBit(p, bit)) + CountTrue(p) + (if bit then 1 else 0)) % 2 == 0
  {
    hide CountTrue, XorBits;
    var out := p[1..] + [false];
    assert p == [p[0]] + p[1..];
    CountOne(p[0]);
    CountOne(false);
    CountAppend([p[0]], p[1..]);
    CountAppend(p[1..], [false]);
    CountXor(out, GENERATOR);
    GeneratorIsOdd();
  }

  /** The generator has the factor x + 1, so the register keeps the parity of what it was fed. */
  lemma {:induction false} CountFeed(p: Reg, bits: seq<bool>)
    ensures (CountTrue(Feed(p, bits)) + CountTrue(p) + CountTrue(bits)) % 2 == 0
    decreases |bits|
  {
    hide FeedBit;
    if bits == [] {
      assert (CountTrue(p) + CountTrue(p)) % 2 == 0;
    } else {
      CountFeed(FeedBit(p, bits[0]), bits[1..]);
      CountFeedBit(p, bits[0]);
    }
  }

  /** Error detection: flipping any odd number of bits of an accepted frame, anywhere, is rejected. */
  lemma OddErrorIsRejected(f: seq<Octet>, g: seq<Octet>)
    requires Accepted(f) && |g| == |f|
    requires CountTrue(XorBits(Bits(f), Bits(g))) % 2 == 1
    ensures !Accepted(g)
  {
    hide Bits, Crc, Feed, CountTrue;
    RegisterDifference(f, g);
    CountFeed(ZERO, XorBits(Bits(f), Bits(g)));
    CountAllFalse(ZERO);
  }
}
