/** Numbers as RFC 8259, section 6, writes them, and what they are worth: a sign, digits, a fraction and
    a power of ten. Leading zeros are let through as well. */
module JsonNumberGrammar {
  import opened Bytes
  import opened JsonText
  import opened JsonNumber

  datatype Numeral = Numeral(negative: bool, whole: seq<byte>, fraction: Option<seq<byte>>, power: Option<Power>)

  /** The exponent: `e` or `E`, perhaps a sign, and digits. */
  datatype Power = Power(mark: byte, sign: Option<byte>, digits: seq<byte>)

  predicate AllDigits(t: seq<byte>) {
    forall i :: 0 <= i < |t| ==> 48 <= t[i] <= 57
  }

  predicate Wellformed(n: Numeral) {
    n.whole != [] && AllDigits(n.whole) &&
    (n.fraction.Some? ==> n.fraction.value != [] && AllDigits(n.fraction.value)) &&
    (n.power.Some? ==>
       var p := n.power.value;
       (p.mark == 101 || p.mark == 69) && (p.sign.Some? ==> p.sign.value == 43 || p.sign.value == 45) &&
       p.digits != [] && AllDigits(p.digits))
  }

  function SignText(n: Numeral): seq<byte> {
    if n.negative then [45] else []
  }

  function FractionText(n: Numeral): seq<byte> {
    if n.fraction.Some? then [46] + n.fraction.value else []
  }

  function PowerHead(p: Power): seq<byte> {
    [p.mark] + if p.sign.Some? then [p.sign.value] else []
  }

  function PowerText(n: Numeral): seq<byte> {
    if n.power.None? then []
    else PowerHead(n.power.value) + n.power.value.digits
  }

  function NumeralText(n: Numeral): seq<byte> {
    SignText(n) + n.whole + FractionText(n) + PowerText(n)
  }

  // ---------------------------------------------------------------- what it is worth

  function Natural(digits: seq<byte>): nat
    requires AllDigits(digits)
  {
    if digits == [] then 0 else 10 * Natural(digits[..|digits| - 1]) + (digits[|digits| - 1] as nat - 48)
  }

  /** What the digit at place `k` behind the point counts. */
  function Tenth(k: nat): real {
    if k == 0 then 1.0 else Tenth(k - 1) / 10.0
  }

  function Fraction(digits: seq<byte>): real
    requires AllDigits(digits)
  {
    if digits == [] then 0.0
    else Fraction(digits[..|digits| - 1]) + (digits[|digits| - 1] as nat - 48) as real * Tenth(|digits|)
  }

  /** `x` times ten to the power `e`. */
  function Scaled(x: real, e: int): real
    decreases if e < 0 then -e else e
  {
    if e == 0 then x else if e > 0 then Scaled(10.0 * x, e - 1) else Scaled(x / 10.0, e + 1)
  }

  function PowerOf(n: Numeral): int
    requires Wellformed(n)
  {
    if n.power.None? then 0
    else if n.power.value.sign == Some(45) then -(Natural(n.power.value.digits) as int)
    else Natural(n.power.value.digits)
  }

  function Worth(n: Numeral): real
    requires Wellformed(n)
  {
    var digits := if n.fraction.Some? then n.fraction.value else [];
    var x := Scaled(Natural(n.whole) as real + Fraction(digits), PowerOf(n));
    if n.negative then -x else x
  }

  // ---------------------------------------------------------------- powers of ten

  lemma {:induction false} DigitsAreNatural(t: seq<byte>)
    requires AllDigits(t)
    ensures DigitsValue(t) == Natural(t)
  {
    if t != [] {
      DigitsAreNatural(t[..|t| - 1]);
    }
  }

  lemma PowDown(e: int)
    ensures Pow10(e - 1) == Pow10(e) / 10.0
    ensures Pow10(e + 1) == 10.0 * Pow10(e)
  {
  }

  lemma {:induction false} PowSplit(e: int, k: nat)
    ensures Pow10(e - k) == Pow10(e) * Tenth(k)
    decreases k
  {
    if k > 0 {
      PowSplit(e, k - 1);
      PowDown(e - (k - 1));
      hide Pow10;
      TimesTenth(Pow10(e), k);
    }
  }

  lemma TimesTenth(x: real, k: nat)
    requires k > 0
    ensures x * Tenth(k - 1) / 10.0 == x * Tenth(k)
  {
  }

  lemma {:induction false} ScaledIs(x: real, e: int)
    ensures Scaled(x, e) == x * Pow10(e)
    decreases if e < 0 then -e else e
  {
    if e > 0 {
      ScaledIs(10.0 * x, e - 1);
      PowDown(e);
      hide Pow10, Scaled;
      Regroup3(x, 10.0, Pow10(e - 1));
    } else if e < 0 {
      ScaledIs(x / 10.0, e + 1);
      PowDown(e + 1);
      hide Pow10, Scaled;
      OverTen(x, Pow10(e + 1));
    }
  }

  lemma Regroup3(x: real, y: real, z: real)
    ensures (y * x) * z == x * (y * z)
  {
  }

  lemma OverTen(x: real, y: real)
    ensures (x / 10.0) * y == x * (y / 10.0)
  {
  }

  /** All digits together, with the point moved back. */
  lemma {:induction false} PointMoves(w: seq<byte>, f: seq<byte>)
    requires AllDigits(w) && AllDigits(f)
    ensures DigitsValue(w + f) as real * Tenth(|f|) == Natural(w) as real + Fraction(f)
    decreases |f|
  {
    hide DigitsValue, Natural, Fraction, Tenth;
    if f == [] {
      NoFraction(w);
    } else {
      PointMoves(w, f[..|f| - 1]);
      LastDigit(w, f);
      OneMoreDigit(DigitsValue(w + f[..|f| - 1]) as real, (f[|f| - 1] as nat - 48) as real, |f|);
    }
  }

  lemma NoFraction(w: seq<byte>)
    requires AllDigits(w)
    ensures DigitsValue(w + []) as real * Tenth(0) == Natural(w) as real + Fraction([])
  {
    assert w + [] == w;
    DigitsAreNatural(w);
    assert Tenth(0) == 1.0 && Fraction([]) == 0.0;
    hide DigitsValue, Natural, Fraction, Tenth;
  }

  lemma LastDigit(w: seq<byte>, f: seq<byte>)
    requires AllDigits(f) && f != []
    ensures var g, d := f[..|f| - 1], f[|f| - 1] as nat - 48;
      DigitsValue(w + f) == 10 * DigitsValue(w + g) + d &&
      Fraction(f) == Fraction(g) + d as real * Tenth(|f|)
  {
    assert (w + f)[..|w + f| - 1] == w + f[..|f| - 1];
    assert (w + f)[|w + f| - 1] == f[|f| - 1];
    hide Tenth;
  }

  lemma OneMoreDigit(a: real, d: real, k: nat)
    requires k > 0
    ensures (10.0 * a + d) * Tenth(k) == a * Tenth(k - 1) + d * Tenth(k)
  {
    assert 10.0 * Tenth(k) == Tenth(k - 1);
    hide Tenth;
    Distribute(a, d, Tenth(k));
  }

  lemma Distribute(a: real, d: real, t: real)
    ensures (10.0 * a + d) * t == a * (10.0 * t) + d * t
  {
  }

  /** The arithmetic of `strtod` gives what the numeral is worth. */
  lemma DigitsAreWorth(w: seq<byte>, f: seq<byte>, e: int)
    requires AllDigits(w) && AllDigits(f)
    ensures DigitsValue(w + f) as real * Pow10(e - |f|) == Scaled(Natural(w) as real + Fraction(f), e)
  {
    hide DigitsValue, Pow10, Natural, Fraction, Scaled, Tenth, AllDigits;
    PowSplit(e, |f|);
    PointMoves(w, f);
    ScaledIs(Natural(w) as real + Fraction(f), e);
    Swap(DigitsValue(w + f) as real, Pow10(e), Tenth(|f|));
  }

  lemma Swap(a: real, p: real, t: real)
    ensures a * (p * t) == (a * t) * p
  {
  }

  // ---------------------------------------------------------------- reading

  lemma {:induction false} RunOfDigits(t: seq<byte>, i: nat, d: seq<byte>)
    requires AllDigits(d) && At(t, i, d) && (i + |d| == |t| || !(48 <= t[i + |d|] <= 57))
    ensures DigitsEnd(t, i) == i + |d|
    decreases |d|
  {
    if d != [] {
      AtByte(t, i, d, 0);
      AtPrefix(t, i, d, 1);
      RunOfDigits(t, i + 1, d[1..]);
    }
  }

  /** A power of ten begins here. */
  predicate BeginsPower(t: seq<byte>) {
    |t| > 1 && (t[0] == 101 || t[0] == 69) &&
    (48 <= t[1] <= 57 || ((t[1] == 43 || t[1] == 45) && |t| > 2 && 48 <= t[2] <= 57))
  }

  /** `rest` does not make the numeral in front of it longer. */
  predicate CannotContinue(n: Numeral, rest: seq<byte>) {
    rest == [] ||
    (!(48 <= rest[0] <= 57) && (n.power.None? ==> !BeginsPower(rest)) &&
     (n.power.None? && n.fraction.None? ==> rest[0] != 46))
  }

  /** Where the parts of a numeral stand in a text that begins with it. */
  lemma NumeralParts(n: Numeral, rest: seq<byte>)
    ensures var t := NumeralText(n) + rest;
      var first := |SignText(n)|;
      var point := first + |n.whole|;
      var last := point + |FractionText(n)|;
      var end := last + |PowerText(n)|;
      |t| == end + |rest| && At(t, 0, SignText(n)) && At(t, first, n.whole) && end == |NumeralText(n)| &&
      At(t, point, FractionText(n)) && At(t, last, PowerText(n)) && At(t, end, rest)
  {
    hide SignText, FractionText, PowerText;
    var t := NumeralText(n) + rest;
    WholeAt(t);
    AtSplit(t, 0, NumeralText(n), rest);
    AtSplit(t, 0, SignText(n) + n.whole + FractionText(n), PowerText(n));
    AtSplit(t, 0, SignText(n) + n.whole, FractionText(n));
    AtSplit(t, 0, SignText(n), n.whole);
  }

  lemma WholeAt(t: seq<byte>)
    ensures At(t, 0, t)
  {
  }

  /** The digits stand in the text, and nothing else where the digits of the fraction would stand. */
  lemma DigitsStand(n: Numeral, rest: seq<byte>)
    ensures var t, first, point := NumeralText(n) + rest, |SignText(n)|, |SignText(n)| + |n.whole|;
      var last := point + |FractionText(n)|;
      var digits := if n.fraction.Some? then n.fraction.value else [];
      last <= |t| && |digits| <= last - point && t[first..point] == n.whole && t[last - |digits|..last] == digits &&
      last - |digits| == if n.fraction.Some? then point + 1 else point
  {
    hide NumeralText, SignText, PowerText, At;
    var t, point := NumeralText(n) + rest, |SignText(n)| + |n.whole|;
    NumeralParts(n, rest);
    AtSlice(t, |SignText(n)|, n.whole);
    if n.fraction.Some? {
      AtSplit(t, point, [46], n.fraction.value);
      AtSlice(t, point + 1, n.fraction.value);
    }
  }

  /** `strtod` reads a numeral to its last character, whatever follows that does not make it longer, and
      gives what it is worth. */
  lemma StrtodStops(n: Numeral, rest: seq<byte>)
    requires Wellformed(n) && CannotContinue(n, rest)
    ensures Strtod(NumeralText(n) + rest) == Some((Worth(n), |NumeralText(n)|))
  {
    hide Worth, Decimal, Strtod, NumeralText, Wellformed, PowerText, Exponent, PowerOf;
    hide At, DigitsEnd, FractionText, AllDigits, CannotContinue;
    var t := NumeralText(n) + rest;
    var first := |SignText(n)|;
    var point := first + |n.whole|;
    var last := point + |FractionText(n)|;
    var digits := if n.fraction.Some? then n.fraction.value else [];
    DigitsStand(n, rest);
    SignIsRead(n, rest);
    WholeIsRead(n, rest);
    WholeIsThere(n);
    if n.fraction.Some? {
      FractionIsRead(n, rest);
    }
    PowerIsRead(n, rest);
    StrtodReads(t, first, point, last - |digits|, last, PowerOf(n), |NumeralText(n)|);
    DecimalIsWorth(n, digits);
  }

  lemma StrtodOfNumeral(n: Numeral)
    requires Wellformed(n)
    ensures Strtod(NumeralText(n)) == Some((Worth(n), |NumeralText(n)|))
  {
    hide Worth, Strtod, NumeralText, Wellformed;
    StrtodStops(n, []);
    assert NumeralText(n) + [] == NumeralText(n);
  }

  /** A point without digits behind it is read as well. */
  lemma BarePoint(n: Numeral, rest: seq<byte>)
    requires Wellformed(n) && n.fraction.None? && n.power.None?
    requires rest == [] || (!(48 <= rest[0] <= 57) && !BeginsPower(rest))
    ensures Strtod(NumeralText(n) + [46] + rest) == Some((Worth(n), |NumeralText(n)| + 1))
  {
    hide Worth, Decimal, Strtod, NumeralText, Exponent, PowerOf, At, DigitsEnd, AllDigits;
    hide Wellformed, FractionText, PowerText, SignText, BeginsPower;
    var first, point := |SignText(n)|, |NumeralText(n)|;
    var t := NumeralText(n) + ([46] + rest);
    assert t == NumeralText(n) + [46] + rest;
    PointStands(n, rest);
    SignIsRead(n, [46] + rest);
    SignLength(n);
    WholeIsThere(n);
    RunOfDigits(t, first, n.whole);
    NothingFollows(t, point + 1, rest);
    ReadsWithPoint(t, first, point);
    PowerIsZero(n);
    DecimalIsWorth(n, []);
  }

  lemma PointStands(n: Numeral, rest: seq<byte>)
    requires Wellformed(n) && n.fraction.None? && n.power.None?
    ensures var t, first, point := NumeralText(n) + ([46] + rest), |SignText(n)|, |NumeralText(n)|;
      point == first + |n.whole| < |t| && t[point] == 46 && At(t, first, n.whole) && t[first..point] == n.whole &&
      At(t, point + 1, rest) && |t| == point + 1 + |rest|
  {
    hide NumeralText, Wellformed, FractionText, PowerText, SignText, At;
    var t, point := NumeralText(n) + ([46] + rest), |NumeralText(n)|;
    NumeralParts(n, [46] + rest);
    PartsBegin(n);
    AtSplit(t, point, [46], rest);
    AtByte(t, point, [46], 0);
    AtSlice(t, |SignText(n)|, n.whole);
  }

  lemma SignLength(n: Numeral)
    ensures |SignText(n)| == if n.negative then 1 else 0
  {
  }

  lemma ReadsWithPoint(t: seq<byte>, first: nat, point: nat)
    requires t != [] && first == (if t[0] == MINUS || t[0] == PLUS then 1 else 0)
    requires first < point < |t| && point == DigitsEnd(t, first) && t[point] == POINT
    requires DigitsEnd(t, point + 1) == point + 1 && Exponent(t, point + 1) == (0, point + 1)
    ensures Strtod(t) == Some((Decimal(t[0] == MINUS, t[first..point] + [], 0), point + 1))
  {
    hide Decimal, Strtod, Exponent, DigitsEnd;
    StrtodReads(t, first, point, point + 1, point + 1, 0, point + 1);
    assert t[point + 1..point + 1] == [];
  }

  lemma PowerIsZero(n: Numeral)
    requires Wellformed(n) && n.power.None?
    ensures PowerOf(n) == 0
  {
  }

  /** A minus without a digit behind it, and without a point and a digit, is no number. */
  lemma BareMinus(rest: seq<byte>)
    requires rest == [] || !(48 <= rest[0] <= 57)
    requires |rest| > 1 && rest[0] == 46 ==> !(48 <= rest[1] <= 57)
    ensures Strtod([45] + rest) == None
  {
    hide Decimal, Exponent;
    var t := [45] + rest;
    assert DigitsEnd(t, 1) == 1;
    if rest != [] && rest[0] == 46 {
      assert DigitsEnd(t, 2) == 2;
    }
  }

  lemma DecimalIsWorth(n: Numeral, digits: seq<byte>)
    requires Wellformed(n) && digits == if n.fraction.Some? then n.fraction.value else []
    ensures Decimal(n.negative, n.whole + digits, PowerOf(n) - |digits|) == Worth(n)
  {
    hide Natural, Fraction, Scaled, DigitsValue, Pow10, PowerOf;
    WholeIsThere(n);
    DigitsAreWorth(n.whole, digits, PowerOf(n));
  }

  lemma WholeIsThere(n: Numeral)
    requires Wellformed(n)
    ensures |n.whole| > 0 && AllDigits(n.whole)
    ensures n.fraction.Some? ==> |n.fraction.value| > 0 && AllDigits(n.fraction.value)
  {
  }

  /** What `strtod` makes of a text once its parts are found. */
  lemma StrtodReads(t: seq<byte>, first: nat, point: nat, fraction: nat, last: nat, e: int, end: nat)
    requires t != [] && first == (if t[0] == MINUS || t[0] == PLUS then 1 else 0)
    requires first < point <= |t| && point == DigitsEnd(t, first)
    requires fraction == (if point < |t| && t[point] == POINT then point + 1 else point) && fraction <= last <= |t|
    requires last == if fraction > point then DigitsEnd(t, fraction) else point
    requires Exponent(t, last) == (e, end)
    ensures Strtod(t) == Some((Decimal(t[0] == MINUS, t[first..point] + t[fraction..last], e - (last - fraction)), end))
  {
    hide DigitsEnd, Exponent, Decimal;
  }

  lemma SignIsRead(n: Numeral, rest: seq<byte>)
    requires Wellformed(n)
    ensures var t := NumeralText(n) + rest;
      t != [] && (t[0] == MINUS <==> n.negative) && t[0] != PLUS
  {
    hide NumeralText, At;
    NumeralParts(n, rest);
    if n.negative {
      AtByte(NumeralText(n) + rest, 0, [45], 0);
    } else {
      AtByte(NumeralText(n) + rest, 0, n.whole, 0);
    }
  }

  /** With what the fraction and the exponent begin. */
  lemma PartsBegin(n: Numeral)
    requires Wellformed(n)
    ensures FractionText(n) == (if n.fraction.Some? then [46] + n.fraction.value else [])
    ensures n.power.None? ==> PowerText(n) == []
    ensures n.power.Some? ==> PowerText(n) != [] && (PowerText(n)[0] == 101 || PowerText(n)[0] == 69)
  {
  }

  /** What follows the digits in front of the point is no digit. */
  lemma WholeIsRead(n: Numeral, rest: seq<byte>)
    requires Wellformed(n) && CannotContinue(n, rest)
    ensures var t, point := NumeralText(n) + rest, |SignText(n)| + |n.whole|;
      DigitsEnd(t, |SignText(n)|) == point &&
      (point < |t| && t[point] == POINT <==> n.fraction.Some?)
  {
    hide NumeralText, SignText, FractionText, PowerText, At, AllDigits, DigitsEnd, Wellformed, BeginsPower;
    var t, point := NumeralText(n) + rest, |SignText(n)| + |n.whole|;
    NumeralParts(n, rest);
    PartsBegin(n);
    if n.fraction.Some? {
      AtByte(t, point, FractionText(n), 0);
    } else if n.power.Some? {
      AtByte(t, point, PowerText(n), 0);
    } else if rest != [] {
      AtByte(t, point, rest, 0);
    }
    WholeIsThere(n);
    RunOfDigits(t, |SignText(n)|, n.whole);
  }

  lemma FractionIsRead(n: Numeral, rest: seq<byte>)
    requires Wellformed(n) && n.fraction.Some? && CannotContinue(n, rest)
    ensures var t, point := NumeralText(n) + rest, |SignText(n)| + |n.whole|;
      point + 1 <= |t| && DigitsEnd(t, point + 1) == point + |FractionText(n)|
  {
    hide NumeralText, SignText, FractionText, PowerText, At, AllDigits, DigitsEnd, Wellformed, BeginsPower;
    var t, point := NumeralText(n) + rest, |SignText(n)| + |n.whole|;
    NumeralParts(n, rest);
    PartsBegin(n);
    AtSplit(t, point, [46], n.fraction.value);
    if n.power.Some? {
      AtByte(t, point + |FractionText(n)|, PowerText(n), 0);
    } else if rest != [] {
      AtByte(t, point + |FractionText(n)|, rest, 0);
    }
    WholeIsThere(n);
    RunOfDigits(t, point + 1, n.fraction.value);
  }

  lemma PowerIsRead(n: Numeral, rest: seq<byte>)
    requires Wellformed(n) && CannotContinue(n, rest)
    ensures var t, last := NumeralText(n) + rest, |SignText(n)| + |n.whole| + |FractionText(n)|;
      last <= |t| && Exponent(t, last) == (PowerOf(n), |NumeralText(n)|)
  {
    hide NumeralText, SignText, FractionText, Exponent, DigitsEnd, Natural, At, BeginsPower;
    var t, last := NumeralText(n) + rest, |SignText(n)| + |n.whole| + |FractionText(n)|;
    NumeralParts(n, rest);
    if n.power.Some? {
      if rest != [] {
        AtByte(t, |NumeralText(n)|, rest, 0);
      }
      ExponentIsRead(t, last, n.power.value);
    } else {
      NothingFollows(t, last, rest);
    }
  }

  /** Where neither a digit nor a power of ten begins. */
  lemma NothingFollows(t: seq<byte>, i: nat, rest: seq<byte>)
    requires At(t, i, rest) && |t| == i + |rest|
    requires rest == [] || (!(48 <= rest[0] <= 57) && !BeginsPower(rest))
    ensures Exponent(t, i) == (0, i) && DigitsEnd(t, i) == i
  {
    hide DigitsValue, At;
    if rest != [] {
      AtByte(t, i, rest, 0);
    }
    if |rest| > 1 {
      AtByte(t, i, rest, 1);
    }
    if |rest| > 2 {
      AtByte(t, i, rest, 2);
    }
  }

  lemma ExponentIsRead(t: seq<byte>, i: nat, p: Power)
    requires (p.mark == 101 || p.mark == 69) && (p.sign.Some? ==> p.sign.value == 43 || p.sign.value == 45)
    requires p.digits != [] && AllDigits(p.digits)
    requires At(t, i, PowerHead(p) + p.digits)
    requires var end := i + |PowerHead(p) + p.digits|; end < |t| ==> !(48 <= t[end] <= 57)
    ensures Exponent(t, i) ==
            (if p.sign == Some(45) then -(Natural(p.digits) as int) else Natural(p.digits),
             i + |PowerHead(p) + p.digits|)
  {
    hide Exponent, At, DigitsValue, Natural, DigitsEnd;
    var head := PowerHead(p);
    AtSplit(t, i, head, p.digits);
    AtByte(t, i, head, 0);
    if p.sign.Some? {
      AtByte(t, i, head, 1);
    }
    AtByte(t, i + |head|, p.digits, 0);
    RunOfDigits(t, i + |head|, p.digits);
    DigitsAreNatural(p.digits);
    AtSlice(t, i + |head|, p.digits);
    ExponentReads(t, i, p.sign, i + |head|, i + |head| + |p.digits|);
  }

  lemma ExponentReads(t: seq<byte>, i: nat, sign: Option<byte>, first: nat, end: nat)
    requires i < |t| && (t[i] == LOWER_E || t[i] == UPPER_E)
    requires sign.Some? ==>
      first == i + 2 && i + 1 < |t| && t[i + 1] == sign.value && (sign.value == PLUS || sign.value == MINUS)
    requires sign.None? ==> first == i + 1 && (i + 1 < |t| ==> t[i + 1] != PLUS && t[i + 1] != MINUS)
    requires first < end <= |t| && DigitsEnd(t, first) == end
    ensures Exponent(t, i) ==
            (if sign == Some(MINUS) then -(DigitsValue(t[first..end]) as int) else DigitsValue(t[first..end]), end)
  {
    hide DigitsValue, DigitsEnd;
  }

  // ---------------------------------------------------------------- in a text

  /** `p` is the end of the text or stands on a byte that cannot continue a number. */
  ghost predicate NumberEnds(s: seq<byte>, p: nat) {
    p <= |s| && (p < |s| ==> !IsNumberByte(s[p]))
  }

  /** A numeral anywhere in a text is read as what it is worth, and to its end, exactly if it is no longer
      than the 63 characters that are copied. */
  lemma NumeralIsRead(s: seq<byte>, off: nat, n: Numeral)
    requires Wellformed(n) && At(s, off, NumeralText(n)) && NumberEnds(s, off + |NumeralText(n)|)
    ensures ParseNumber(s, off) == NumberOk(Worth(n), off + |NumeralText(n)|) <==> |NumeralText(n)| <= 63
    ensures |NumeralText(n)| > 63 && ParseNumber(s, off).NumberOk? ==> ParseNumber(s, off).at <= off + 63
  {
    hide NumeralText, Strtod, Worth, Wellformed;
    var t := NumeralText(n);
    if |t| <= 63 {
      forall k | off <= k < off + |t| ensures IsNumberByte(s[k]) {
        AtByte(s, off, t, k - off);
        NumeralBytes(n, k - off);
      }
      WindowStops(s, off, off + |t|, off + 63);
      StrtodOfNumeral(n);
      AtSlice(s, off, t);
    }
  }

  lemma AtSlice(s: seq<byte>, p: nat, t: seq<byte>)
    requires At(s, p, t)
    ensures p + |t| <= |s| && s[p..p + |t|] == t
  {
  }

  lemma NumeralBytes(n: Numeral, k: nat)
    requires Wellformed(n) && k < |NumeralText(n)|
    ensures IsNumberByte(NumeralText(n)[k])
  {
  }

  lemma {:induction false} WindowStops(s: seq<byte>, p: nat, e: nat, limit: nat)
    requires p <= e <= limit && NumberEnds(s, e)
    requires forall k :: p <= k < e ==> IsNumberByte(s[k])
    ensures WindowEnd(s, p, limit) == e
    decreases e - p
  {
    if p < e {
      WindowStops(s, p + 1, e, limit);
    }
  }

  // ---------------------------------------------------------------- printed integers

  /** A printed integer is a numeral of its digits, without superfluous zeros, and worth that integer. */
  lemma PrintedInteger(n: int)
    ensures var d := Digits(if n < 0 then -n else n);
      AllDigits(d) && d != [] && (d[0] == 48 ==> n == 0) && (n == 0 ==> d == [48]) &&
      IntText(n) == NumeralText(Numeral(n < 0, d, None, None)) &&
      Natural(d) == if n < 0 then -n else n
  {
    var a := if n < 0 then -n else n;
    NoSuperfluousZero(a);
    DigitsReadBack(a);
    DigitsAreNatural(Digits(a));
    hide Digits;
    var t := NumeralText(Numeral(n < 0, Digits(a), None, None));
    assert t == (if n < 0 then [45] else []) + Digits(a);
  }

  lemma {:induction false} NoSuperfluousZero(n: nat)
    ensures AllDigits(Digits(n)) && (Digits(n)[0] == 48 ==> n == 0) && (n == 0 ==> Digits(n) == [48])
    decreases n
  {
    if n >= 10 {
      NoSuperfluousZero(n / 10);
    }
  }
}
