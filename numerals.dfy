/** Decimal numbers as the program reads and writes them: Python's int() and float()
    on the user's text, and the `{n:0Nd}`, `{n}` and `{x:.4f}` formats that put
    numbers on the wire. Values written with `.4f` are fixed-point integers in
    units of 0.0001, which makes that format exact. */
module Numerals {
  import opened Wrappers
  import opened Text

  predicate IsDigit(c: char) {
    '0' <= c <= '9'
  }

  predicate AllDigits(s: string) {
    forall i :: 0 <= i < |s| ==> IsDigit(s[i])
  }

  function DigitValue(c: char): nat
    requires IsDigit(c)
  {
    c as int - '0' as int
  }

  function DigitChar(d: nat): (c: char)
    requires d < 10
    ensures IsDigit(c) && DigitValue(c) == d
  {
    ('0' as int + d) as char
  }

  function Pow10(n: nat): nat {
    if n == 0 then 1 else 10 * Pow10(n - 1)
  }

  /** The number a string of decimal digits denotes, most significant digit first. */
  function Value(s: string): (v: nat)
    requires AllDigits(s)
    ensures v < Pow10(|s|)
  {
    if s == [] then 0 else 10 * Value(s[..|s| - 1]) + DigitValue(s[|s| - 1])
  }

  /** str(n) for n >= 0: the decimal digits of n, most significant first. */
  function Digits(n: nat): string {
    if n < 10 then [DigitChar(n)] else Digits(n / 10) + [DigitChar(n % 10)]
  }

  /** The digits of n denote n and have no leading zero. */
  lemma {:induction false} DigitsSpec(n: nat)
    ensures var s := Digits(n);
      |s| >= 1 && AllDigits(s) && Value(s) == n && (s[0] != '0' || s == "0")
  {
    if n >= 10 {
      DigitsSpec(n / 10);
      var s := Digits(n);
      assert s[..|s| - 1] == Digits(n / 10);
    }
  }

  function Zeros(k: nat): (s: string)
    ensures |s| == k && AllDigits(s)
    ensures forall i :: 0 <= i < k ==> s[i] == '0'
  {
    if k == 0 then "" else Zeros(k - 1) + "0"
  }

  lemma {:induction false} ValueOfZeros(k: nat)
    ensures Value(Zeros(k)) == 0
  {
    if k > 0 {
      ValueOfZeros(k - 1);
      assert Zeros(k)[..k - 1] == Zeros(k - 1);
    }
  }

  /** Leading zeros do not change the value of a digit string. */
  lemma {:induction false} ValueLeadingZeros(k: nat, d: string)
    requires AllDigits(d)
    ensures AllDigits(Zeros(k) + d) && Value(Zeros(k) + d) == Value(d)
  {
    if d == [] {
      assert Zeros(k) + d == Zeros(k);
      ValueOfZeros(k);
    } else {
      var d' := d[..|d| - 1];
      ValueLeadingZeros(k, d');
      assert (Zeros(k) + d)[..|Zeros(k) + d| - 1] == Zeros(k) + d';
    }
  }

  lemma TenTimes(v: int, p: int)
    ensures 10 * (v * p) == v * (10 * p)
  {
  }

  /** Trailing zeros multiply the value of a digit string by a power of ten. */
  lemma {:induction false} ValueShift(d: string, k: nat)
    requires AllDigits(d)
    ensures AllDigits(d + Zeros(k)) && Value(d + Zeros(k)) == Value(d) * Pow10(k)
  {
    if k == 0 {
      assert d + Zeros(k) == d;
    } else {
      var e' := d + Zeros(k - 1);
      ValueShift(d, k - 1);
      assert d + Zeros(k) == e' + "0";
      ValueAppendZero(e');
      TenTimes(Value(d), Pow10(k - 1));
    }
  }

  lemma ValueAppendZero(s: string)
    requires AllDigits(s)
    ensures AllDigits(s + "0") && Value(s + "0") == 10 * Value(s)
  {
    assert (s + "0")[..|s|] == s;
  }

  /** `f"{n:0{w}d}"` for n >= 0: the digits of n, padded on the left with zeros to width w. */
  function ZeroPad(n: nat, w: nat): string {
    if |Digits(n)| < w then Zeros(w - |Digits(n)|) + Digits(n) else Digits(n)
  }

  /** The padded digits still denote n, and are w long unless n needs more digits. */
  lemma ZeroPadSpec(n: nat, w: nat)
    ensures var s := ZeroPad(n, w);
      AllDigits(s) && Value(s) == n && |s| == if |Digits(n)| < w then w else |Digits(n)|
  {
    DigitsSpec(n);
    if |Digits(n)| < w {
      ValueLeadingZeros(w - |Digits(n)|, Digits(n));
    }
  }

  /** `f"{n:0{w}d}"` for any int: a negative number's sign counts toward the width. */
  function FormatInt(n: int, w: nat): string {
    if n >= 0 then ZeroPad(n, w) else "-" + ZeroPad(-n, if w > 0 then w - 1 else 0)
  }

  /** str(n) and `f"{n}"` for an int. */
  function Str(n: int): string {
    FormatInt(n, 0)
  }

  /** A number below 10^k has at most k digits. */
  lemma {:induction false} DigitsLength(n: nat, k: nat)
    requires 1 <= k && n < Pow10(k)
    ensures |Digits(n)| <= k
  {
    if n >= 10 {
      assert k >= 2;
      DigitsLength(n / 10, k - 1);
    }
  }

  /** Two digit strings of one length with one value are the same string. */
  lemma {:induction false} ValueInjective(a: string, b: string)
    requires AllDigits(a) && AllDigits(b) && |a| == |b| && Value(a) == Value(b)
    ensures a == b
  {
    if a != [] {
      var n := |a| - 1;
      assert DigitValue(a[n]) == DigitValue(b[n]);
      ValueInjective(a[..n], b[..n]);
      assert a == a[..n] + [a[n]] && b == b[..n] + [b[n]];
    }
  }

  /** The digits of a Python integer literal: decimal digits, with single
      underscores allowed between two digits. None when s is not of that form. */
  function Ungroup(s: string): (r: Option<string>)
    ensures r.Some? ==> |r.value| >= 1 && AllDigits(r.value)
    decreases |s|
  {
    if s == [] || !IsDigit(s[0]) then None
    else if |s| == 1 then Some(s)
    else
      match Ungroup(if s[1] == '_' then s[2..] else s[1..])
      case None => None
      case Some(d) => Some([s[0]] + d)
  }

  lemma {:induction false} UngroupDigits(s: string)
    requires |s| >= 1 && AllDigits(s)
    ensures Ungroup(s) == Some(s)
  {
    if |s| > 1 {
      UngroupDigits(s[1..]);
      assert [s[0]] + s[1..] == s;
    }
  }

  /** int(s): optional surrounding whitespace, an optional sign, then grouped digits.
      None where int() raises ValueError. */
  function ParseInt(s: string): Option<int> {
    var t := Strip(s);
    if t != [] && (t[0] == '+' || t[0] == '-') then
      match Ungroup(t[1..])
      case None => None
      case Some(d) =>
        var v: int := if t[0] == '-' then -(Value(d) as int) else Value(d);
        Some(v)
    else
      match Ungroup(t)
      case None => None
      case Some(d) => Some(Value(d))
  }

  /** int() reads a plain digit string as the number it denotes. */
  lemma ParseIntDigits(s: string)
    requires |s| >= 1 && AllDigits(s)
    ensures ParseInt(s) == Some(Value(s))
  {
    StripUnchanged(s);
    UngroupDigits(s);
  }

  /** int(str(n)) == n: the decimal text of every integer reads back as that integer. */
  lemma ParseIntStr(n: int)
    ensures ParseInt(Str(n)).Some? && ParseInt(Str(n)).value == n
  {
    var d := Digits(if n >= 0 then n else -n);
    DigitsSpec(if n >= 0 then n else -n);
    if n >= 0 {
      assert Str(n) == d;
      ParseIntDigits(d);
    } else {
      assert Str(n) == "-" + d;
      ParseIntNegative(d);
    }
  }

  /** int() reads a minus sign and plain digits as the negated number. */
  lemma ParseIntNegative(d: string)
    requires |d| >= 1 && AllDigits(d)
    ensures ParseInt("-" + d).Some? && ParseInt("-" + d).value == -(Value(d) as int)
  {
    var t := "-" + d;
    StripUnchanged(t);
    assert t[1..] == d;
    UngroupDigits(d);
  }

  /** A float literal float() accepts, exponent-free: its sign and the digits before
      and after the point, with grouping underscores removed. */
  datatype Decimal = Decimal(negative: bool, whole: string, fraction: string)

  function UngroupOrEmpty(s: string): (r: Option<string>)
    ensures r.Some? ==> AllDigits(r.value)
  {
    if s == [] then Some([]) else Ungroup(s)
  }

  /** The unsigned part of a float literal: grouped digits with at most one point and
      at least one digit. */
  function ParseUnsignedDecimal(body: string): (r: Option<Decimal>)
    ensures r.Some? ==> !r.value.negative && AllDigits(r.value.whole) && AllDigits(r.value.fraction)
    ensures r.Some? ==> r.value.whole != [] || r.value.fraction != []
  {
    if '.' !in body then
      match Ungroup(body)
      case None => None
      case Some(w) => Some(Decimal(false, w, ""))
    else
      var k := IndexOf(body, '.');
      match (UngroupOrEmpty(body[..k]), UngroupOrEmpty(body[k + 1..]))
      case (Some(w), Some(f)) => if w == [] && f == [] then None else Some(Decimal(false, w, f))
      case _ => None
  }

  /** A stripped float literal: an optional sign, then the unsigned part. */
  function ParseSigned(t: string): Option<Decimal> {
    if t != [] && (t[0] == '+' || t[0] == '-') then
      match ParseUnsignedDecimal(t[1..])
      case None => None
      case Some(d) => Some(d.(negative := t[0] == '-'))
    else
      ParseUnsignedDecimal(t)
  }

  lemma ParseSignedDigits(t: string)
    ensures var r := ParseSigned(t);
      r.Some? ==> AllDigits(r.value.whole) && AllDigits(r.value.fraction)
                  && (r.value.whole != [] || r.value.fraction != [])
  {
  }

  /** float(s) for plain decimals: surrounding whitespace is ignored. */
  function ParseDecimal(s: string): (r: Option<Decimal>)
    ensures r.Some? ==> AllDigits(r.value.whole) && AllDigits(r.value.fraction)
    ensures r.Some? ==> r.value.whole != [] || r.value.fraction != []
  {
    ParseSignedDigits(Strip(s));
    ParseSigned(Strip(s))
  }

  function DropLeadingZeros(s: string): string {
    if s != [] && s[0] == '0' then DropLeadingZeros(s[1..]) else s
  }

  function DropTrailingZeros(s: string): string {
    if s != [] && s[|s| - 1] == '0' then DropTrailingZeros(s[..|s| - 1]) else s
  }

  function OrZero(s: string): string {
    if s == [] then "0" else s
  }

  /** str(float(s)) for a plain decimal s: sign, whole part without leading zeros,
      a point, fraction without trailing zeros (each part "0" when nothing is left).
      None where float() raises ValueError. */
  function FloatStr(s: string): Option<string> {
    match ParseDecimal(s)
    case None => None
    case Some(d) => Some(FloatText(d))
  }

  function FloatText(d: Decimal): string {
    var body := OrZero(DropLeadingZeros(d.whole)) + "." + OrZero(DropTrailingZeros(d.fraction));
    if d.negative then "-" + body else body
  }

  lemma FloatStrDecimal(s: string, d: Decimal)
    requires ParseDecimal(s) == Some(d)
    ensures FloatStr(s) == Some(FloatText(d))
  {
  }

  /** What str(float(...)) prints always holds a point, so it is never a word such as
      "None". */
  lemma FloatStrHasPoint(s: string)
    ensures FloatStr(s).Some? ==> '.' in FloatStr(s).value
  {
    match ParseDecimal(s)
    case None =>
    case Some(d) =>
      var a := OrZero(DropLeadingZeros(d.whole));
      var b := OrZero(DropTrailingZeros(d.fraction));
      assert (a + "." + b)[|a|] == '.';
      if d.negative {
        assert ("-" + (a + "." + b))[|a| + 1] == '.';
      }
  }

  /** Digits, point, digits read as exactly those two parts. */
  lemma UnsignedDecimalPlain(w: string, f: string)
    requires |w| >= 1 && AllDigits(w) && |f| >= 1 && AllDigits(f)
    ensures ParseUnsignedDecimal(w + "." + f) == Some(Decimal(false, w, f))
  {
    var body := w + "." + f;
    assert body[|w|] == '.';
    var k := IndexOf(body, '.');
    assert k == |w|;
    assert body[..k] == w && body[k + 1..] == f;
    UngroupDigits(w);
    UngroupDigits(f);
  }

  lemma ParseDecimalUnpadded(t: string)
    requires t != [] && !IsSpace(t[0]) && !IsSpace(t[|t| - 1])
    ensures ParseDecimal(t) == ParseSigned(t)
  {
    StripUnchanged(t);
  }

  /** float() reads digits, point, digits as exactly those parts. */
  lemma ParseDecimalUnsigned(w: string, f: string)
    requires |w| >= 1 && AllDigits(w) && |f| >= 1 && AllDigits(f)
    ensures ParseDecimal(w + "." + f) == Some(Decimal(false, w, f))
  {
    var t := w + "." + f;
    UnsignedDecimalPlain(w, f);
    assert t[0] == w[0] && t[|t| - 1] == f[|f| - 1];
    ParseDecimalUnpadded(t);
  }

  /** float() reads plain digits as a whole number without fraction. */
  lemma ParseDecimalWhole(s: string)
    requires |s| >= 1 && AllDigits(s)
    ensures ParseDecimal(s) == Some(Decimal(false, s, ""))
  {
    ParseDecimalUnpadded(s);
    UngroupDigits(s);
    assert '.' !in s by {
      assert forall i :: 0 <= i < |s| ==> s[i] != '.';
    }
    assert ParseUnsignedDecimal(s) == Some(Decimal(false, s, ""));
    assert !(s[0] == '+' || s[0] == '-');
  }

  /** float() reads a minus sign, digits, point, digits as the negative decimal. */
  lemma ParseDecimalNegative(w: string, f: string)
    requires |w| >= 1 && AllDigits(w) && |f| >= 1 && AllDigits(f)
    ensures ParseDecimal("-" + (w + "." + f)) == Some(Decimal(true, w, f))
  {
    var body := w + "." + f;
    var t := "-" + body;
    UnsignedDecimalPlain(w, f);
    assert t[0] == '-' && t[1..] == body;
    assert ParseSigned(t) == Some(Decimal(true, w, f));
    assert t[|t| - 1] == f[|f| - 1];
    ParseDecimalUnpadded(t);
  }

  /** A whole part without leading zero and a one-digit fraction is already in the form
      str(float(...)) prints. */
  lemma FloatStrCanonical(w: string, f: char)
    requires |w| >= 1 && AllDigits(w) && w[0] != '0' && IsDigit(f)
    ensures FloatStr(w + "." + [f]) == Some(w + "." + [f])
  {
    var d := Decimal(false, w, [f]);
    ParseDecimalUnsigned(w, [f]);
    assert DropLeadingZeros(w) == w;
    assert OrZero(DropTrailingZeros([f])) == [f] by {
      assert [f][..0] == [];
    }
    assert FloatText(d) == w + "." + [f];
    FloatStrDecimal(w + "." + [f], d);
  }

  predicate AllZeros(s: string) {
    forall i :: 0 <= i < |s| ==> s[i] == '0'
  }

  /** A decimal's value in units of 0.0001 when it has at most four significant
      fraction digits; None otherwise. A shorter fraction counts as if padded with
      zeros to four digits, which multiplies it by a power of ten (PaddedFraction). */
  function Fixed4Of(d: Decimal): Option<int>
    requires AllDigits(d.whole) && AllDigits(d.fraction)
  {
    var f := d.fraction;
    if |f| > 4 && !AllZeros(f[4..]) then None
    else
      var m := Value(d.whole) * 10000 + FractionUnits(f);
      Some(if d.negative then -m else m)
  }

  /** The first four fraction digits in units of 0.0001. */
  function FractionUnits(f: string): nat
    requires AllDigits(f)
  {
    if |f| <= 4 then Value(f) * Pow10(4 - |f|) else Value(f[..4])
  }

  /** Exactly four fraction digits are taken as they are. */
  lemma FourFractionDigits(negative: bool, w: string, f: string, m: int)
    requires AllDigits(w) && |f| == 4 && AllDigits(f) && m == Value(w) * 10000 + Value(f)
    ensures Fixed4Of(Decimal(negative, w, f)) == Some(if negative then -m else m)
  {
  }

  /** A fraction of at most four digits means the same as that fraction padded with
      zeros to four digits: "146.52" reads as "146.5200" does. */
  lemma PaddedFraction(negative: bool, w: string, f: string, padded: string)
    requires AllDigits(w) && AllDigits(f) && |f| <= 4 && padded == f + Zeros(4 - |f|)
    ensures AllDigits(padded) && |padded| == 4
    ensures Fixed4Of(Decimal(negative, w, f)) == Fixed4Of(Decimal(negative, w, padded))
  {
    PadUnits(f, padded);
  }

  lemma PadUnits(f: string, padded: string)
    requires AllDigits(f) && |f| <= 4 && padded == f + Zeros(4 - |f|)
    ensures AllDigits(padded) && |padded| == 4 && FractionUnits(f) == FractionUnits(padded)
  {
    ValueShift(f, 4 - |f|);
    FourUnits(padded);
  }

  lemma FourUnits(p: string)
    requires AllDigits(p) && |p| == 4
    ensures FractionUnits(p) == Value(p)
  {
    assert Pow10(4 - |p|) == 1;
  }

  /** Without fraction digits the value is the whole part in units of 0.0001. */
  lemma NoFractionDigits(negative: bool, w: string)
    requires AllDigits(w)
    ensures var m := Value(w) * 10000;
      Fixed4Of(Decimal(negative, w, "")) == Some(if negative then -m else m)
  {
  }

  /** float(s) in units of 0.0001, for the decimals with at most four significant
      fraction digits. */
  function ParseFixed4(s: string): Option<int> {
    match ParseDecimal(s)
    case None => None
    case Some(d) => Fixed4Of(d)
  }

  /** `f"{x:.4f}"` for x given in units of 0.0001: sign, whole part, point, four digits. */
  function FormatFixed4(n: int): string {
    var m := if n < 0 then -n else n;
    var body := Digits(m / 10000) + "." + ZeroPad(m % 10000, 4);
    if n < 0 then "-" + body else body
  }

  /** The `.4f` text of every fixed-point value reads back, through float(), as that
      value: the format loses nothing, so two values print alike only when equal. */
  lemma FixedRoundTrip(n: int)
    ensures ParseFixed4(FormatFixed4(n)) == Some(n)
  {
    var m := if n < 0 then -n else n;
    var d, f := Digits(m / 10000), ZeroPad(m % 10000, 4);
    FormatFixed4Parts(n);
    FourFractionDigits(n < 0, d, f, m);
    ParseFixed4Decimal(FormatFixed4(n), Decimal(n < 0, d, f));
  }

  /** float() reads the `.4f` text back as its sign, whole digits and four fraction
      digits, which together make up the magnitude. */
  lemma FormatFixed4Parts(n: int)
    ensures var m := if n < 0 then -n else n;
      var d, f := Digits(m / 10000), ZeroPad(m % 10000, 4);
      && AllDigits(d) && |f| == 4 && AllDigits(f) && Value(d) * 10000 + Value(f) == m
      && ParseDecimal(FormatFixed4(n)) == Some(Decimal(n < 0, d, f))
  {
    var m := if n < 0 then -n else n;
    var d := Digits(m / 10000);
    var f := ZeroPad(m % 10000, 4);
    DigitsSpec(m / 10000);
    ZeroPadSpec(m % 10000, 4);
    assert |f| == 4 by {
      assert Pow10(4) == 10000;
      DigitsLength(m % 10000, 4);
    }
    assert Value(d) * 10000 + Value(f) == m by {
      WholeAndFraction(m);
    }
    var text := FormatFixed4(n);
    if n < 0 {
      assert text == "-" + (d + "." + f);
      ParseDecimalNegative(d, f);
    } else {
      assert text == d + "." + f;
      ParseDecimalUnsigned(d, f);
    }
  }

  lemma ParseFixed4Decimal(s: string, d: Decimal)
    requires ParseDecimal(s) == Some(d)
    ensures ParseFixed4(s) == Fixed4Of(d)
  {
  }

  lemma WholeAndFraction(m: nat)
    ensures m / 10000 * 10000 + m % 10000 == m
  {
  }

  lemma FormatFixed4Injective(a: int, b: int)
    ensures FormatFixed4(a) == FormatFixed4(b) <==> a == b
  {
    FixedRoundTrip(a);
    FixedRoundTrip(b);
  }
}
