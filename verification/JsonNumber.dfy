/** `parse_number` of ser2mqtt/src/cJSON.c. `strtod` is modelled on the characters that `parse_number`
    lets through, with exact arithmetic: rounding, and the limits of a double, are left out. */
module JsonNumber {
  import opened Bytes
  import opened JsonTree
  import opened JsonText

  const PLUS: byte := 43
  const POINT: byte := 46
  const LOWER_E: byte := 101
  const UPPER_E: byte := 69

  /** `sizeof(number_c_string) - 1`. */
  const NUMBER_WINDOW: nat := 63

  predicate IsNumberByte(b: byte) {
    IsDigit(b) || b == PLUS || b == MINUS || b == LOWER_E || b == UPPER_E || b == POINT
  }

  /** Where the run of number characters ends that starts at `p`, at `limit` at the latest. */
  function WindowEnd(s: seq<byte>, p: nat, limit: nat): (e: nat)
    requires p <= limit && p <= |s|
    ensures p <= e <= limit && e <= |s|
    decreases limit - p
  {
    if p < limit && p < |s| && IsNumberByte(s[p]) then WindowEnd(s, p + 1, limit) else p
  }

  /** The end of the run of digits that starts at `i`. */
  function DigitsEnd(t: seq<byte>, i: nat): (e: nat)
    requires i <= |t|
    ensures i <= e <= |t|
    ensures forall k :: i <= k < e ==> IsDigit(t[k])
    ensures e == |t| || !IsDigit(t[e])
    decreases |t| - i
  {
    if i < |t| && IsDigit(t[i]) then DigitsEnd(t, i + 1) else i
  }

  function DigitValue(b: byte): nat {
    if IsDigit(b) then (b - ZERO) as nat else 0
  }

  function DigitsValue(t: seq<byte>): nat {
    if t == [] then 0 else 10 * DigitsValue(t[..|t| - 1]) + DigitValue(t[|t| - 1])
  }

  function Pow10(e: int): real
    decreases if e < 0 then -e else e
  {
    if e == 0 then 1.0 else if e > 0 then 10.0 * Pow10(e - 1) else Pow10(e + 1) / 10.0
  }

  /** The exponent after the `e` at position `i`, and where it ends; no exponent if no digit follows. */
  function Exponent(t: seq<byte>, i: nat): (r: (int, nat))
    requires i <= |t|
    ensures i <= r.1 <= |t|
  {
    if i < |t| && (t[i] == LOWER_E || t[i] == UPPER_E) then
      var signed := i + 1 < |t| && (t[i + 1] == PLUS || t[i + 1] == MINUS);
      var first := if signed then i + 2 else i + 1;
      var last := DigitsEnd(t, first);
      if last == first then (0, i)
      else
        var value: int := DigitsValue(t[first..last]);
        var exponent: int := if signed && t[i + 1] == MINUS then -value else value;
        (exponent, last)
    else (0, i)
  }

  /** The digits as an integer, times a power of ten. */
  function Decimal(negative: bool, digits: seq<byte>, e: int): real {
    var value := DigitsValue(digits) as real * Pow10(e);
    if negative then -value else value
  }

  /** The value `strtod` reads from the start of `t`, and how many characters it takes. */
  function Strtod(t: seq<byte>): (r: Option<(real, nat)>)
    ensures r.Some? ==> 0 < r.value.1 <= |t|
  {
    var negative := t != [] && t[0] == MINUS;
    var first := if t != [] && (t[0] == MINUS || t[0] == PLUS) then 1 else 0;
    var point := DigitsEnd(t, first);
    var fraction := if point < |t| && t[point] == POINT then point + 1 else point;
    var last := if fraction > point then DigitsEnd(t, fraction) else point;
    if point == first && last == fraction then None
    else
      var (exponent, end) := Exponent(t, last);
      var digits := t[first..point] + t[fraction..last];
      Some((Decimal(negative, digits, exponent - (last - fraction)), end))
  }

  datatype NumberResult = NumberOk(d: real, at: nat) | NumberFail

  function ParseNumber(s: seq<byte>, off: nat): (r: NumberResult)
    requires off <= |s|
    ensures r.NumberOk? ==> off < r.at <= |s|
  {
    match Strtod(s[off..WindowEnd(s, off, off + NUMBER_WINDOW)])
    case None => NumberFail
    case Some((d, n)) => NumberOk(d, off + n)
  }

  method CopyNumber(s: seq<byte>, off: nat) returns (t: seq<byte>)
    requires off <= |s|
    ensures t == s[off..WindowEnd(s, off, off + NUMBER_WINDOW)]
  {
    var i := 0;
    while i < NUMBER_WINDOW && off + i < |s| && IsNumberByte(s[off + i])
      invariant i <= NUMBER_WINDOW && off + i <= |s|
      invariant WindowEnd(s, off + i, off + NUMBER_WINDOW) == WindowEnd(s, off, off + NUMBER_WINDOW)
    {
      i := i + 1;
    }
    t := s[off..off + i];
  }

  // ---------------------------------------------------------------- integers are read back

  lemma {:induction false} DigitsReadBack(n: nat)
    ensures DigitsValue(Digits(n)) == n
    decreases n
  {
    var t := Digits(n);
    if n >= 10 {
      DigitsReadBack(n / 10);
      assert t[..|t| - 1] == Digits(n / 10);
    } else {
      assert t[..0] == [];
    }
  }

  lemma {:induction false} DigitsEndAt(t: seq<byte>, i: nat)
    requires i <= |t| && forall k :: i <= k < |t| ==> IsDigit(t[k])
    ensures DigitsEnd(t, i) == |t|
    decreases |t| - i
  {
    if i < |t| {
      DigitsEndAt(t, i + 1);
    }
  }

  /** `strtod` takes all of a printed integer and gives it back. */
  lemma StrtodOfInt(n: int)
    ensures Strtod(IntText(n)) == Some((n as real, |IntText(n)|))
  {
    var t := IntText(n);
    var first := if n < 0 then 1 else 0;
    DigitsEndAt(t, first);
    assert t[first..|t|] + t[|t|..|t|] == Digits(if n < 0 then -n else n);
    DigitsReadBack(if n < 0 then -n else n);
  }

  lemma {:induction false} DigitsLength(n: nat, k: nat)
    requires n < PowerOfTen(k) && k > 0
    ensures |Digits(n)| <= k
    decreases k
  {
    if n >= 10 {
      assert PowerOfTen(0) == 1;
      DigitsLength(n / 10, k - 1);
    }
  }

  function PowerOfTen(k: nat): nat {
    if k == 0 then 1 else 10 * PowerOfTen(k - 1)
  }

  lemma Int32Length(n: int)
    requires INT_MIN <= n <= INT_MAX
    ensures |IntText(n)| <= 11
  {
    assert PowerOfTen(10) == 10_000_000_000;
    DigitsLength(if n < 0 then -n else n, 10);
  }

  lemma {:induction false} WindowIs(s: seq<byte>, p: nat, e: nat, limit: nat)
    requires p <= e <= limit && e < |s| && !IsNumberByte(s[e])
    requires forall k :: p <= k < e ==> IsNumberByte(s[k])
    ensures WindowEnd(s, p, limit) == e
    decreases e - p
  {
    if p < e {
      WindowIs(s, p + 1, e, limit);
    }
  }

  /** A printed int32 followed by anything but a number character is read back exactly. */
  lemma ParseNumberReadsBack(s: seq<byte>, off: nat, n: int)
    requires INT_MIN <= n <= INT_MAX && At(s, off, IntText(n))
    requires off + |IntText(n)| < |s| && !IsNumberByte(s[off + |IntText(n)|])
    ensures ParseNumber(s, off) == NumberOk(n as real, off + |IntText(n)|)
  {
    var t := IntText(n);
    Int32Length(n);
    forall k | off <= k < off + |t| ensures IsNumberByte(s[k]) {
      AtByte(s, off, t, k - off);
      assert IsDigit(t[k - off]) || t[k - off] == MINUS;
    }
    WindowIs(s, off, off + |t|, off + NUMBER_WINDOW);
    StrtodOfInt(n);
  }
}
