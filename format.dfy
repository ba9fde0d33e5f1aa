/**
 * The two pure helpers of the page script: `formatFileSize`, which prints a
 * byte count on a 1024-based scale, and `getNotificationIcon`, which picks the
 * icon of a notification from its severity.
 *
 * Floating point is replaced by exact integer arithmetic: the unit index
 * `Math.floor(Math.log(bytes) / Math.log(1024))` is the integer base-1024
 * logarithm, and `Math.round(x * 100) / 100` is kept as a whole number of
 * hundredths.
 */
module Format {
  import opened Wrappers

  /** The scale of `formatFileSize`. */
  const Kilo: nat := 1024

  /** The unit names, indexed by the power of 1024. */
  const SizeUnits: seq<string> := ["Bytes", "KB", "MB", "GB"]

  function Pow(b: nat, e: nat): nat
  {
    if e == 0 then 1 else b * Pow(b, e - 1)
  }

  lemma {:induction false} PowPositive(e: nat)
    ensures Pow(Kilo, e) >= 1
  {
    if e > 0 { PowPositive(e - 1); }
  }

  lemma {:induction false} PowMonotonic(i: nat, j: nat)
    requires i <= j
    ensures Pow(Kilo, i) <= Pow(Kilo, j)
  {
    if i < j {
      PowMonotonic(i, j - 1);
      PowPositive(j - 1);
    }
  }

  /** If `p <= n / k < q`, scaling back by `k` brackets `n` by `k * p` and `k * q`. */
  lemma ScaleBracket(n: nat, k: nat, p: nat, q: nat)
    requires k > 0 && p <= n / k < q
    ensures k * p <= n < k * q
  {
    var d := n / k;
    assert n == k * d + n % k;
    assert k * p <= k * d;
    assert k * (d + 1) <= k * q;
  }

  /**
   * The unit index of `formatFileSize`: the exponent of the largest power of
   * 1024 that does not exceed `bytes`.
   */
  function UnitIndex(bytes: nat): (i: nat)
    requires bytes >= 1
    ensures Pow(Kilo, i) <= bytes < Pow(Kilo, i + 1)
    decreases bytes
  {
    if bytes < Kilo then 0
    else
      var j := UnitIndex(bytes / Kilo);
      ScaleBracket(bytes, Kilo, Pow(Kilo, j), Pow(Kilo, j + 1));
      j + 1
  }

  /** The bracket of `UnitIndex` determines it: it is the base-1024 logarithm rounded down. */
  lemma UnitIndexUnique(bytes: nat, i: nat)
    requires bytes >= 1
    requires Pow(Kilo, i) <= bytes < Pow(Kilo, i + 1)
    ensures UnitIndex(bytes) == i
  {
    var j := UnitIndex(bytes);
    if j < i {
      PowMonotonic(j + 1, i);
    } else if i < j {
      PowMonotonic(i + 1, j);
    }
  }

  /** `Math.round(bytes / 1024^i * 100)`: the value in the chosen unit, in hundredths, halves rounded up. */
  function RoundedHundredths(bytes: nat, i: nat): nat
  {
    PowPositive(i);
    (200 * bytes + Pow(Kilo, i)) / (2 * Pow(Kilo, i))
  }

  /** The rounding is to the nearest hundredth: |100 * bytes / p - h| <= 1/2. */
  lemma RoundedIsNearest(bytes: nat, i: nat)
    ensures var p, h := Pow(Kilo, i), RoundedHundredths(bytes, i);
      200 * bytes - p < 2 * p * h <= 200 * bytes + p
  {
    PowPositive(i);
    var p := Pow(Kilo, i);
    var n, d := 200 * bytes + p, 2 * p;
    var h := n / d;
    assert n == d * h + n % d;
  }

  lemma MulMonotonic(a: nat, x: nat, y: nat)
    requires x <= y
    ensures a * x <= a * y
  {
  }

  /** In the unit `UnitIndex` chooses, the printed value lies between 1 and 1024. */
  lemma ScaledValueBounds(bytes: nat)
    requires bytes >= 1
    ensures 100 <= RoundedHundredths(bytes, UnitIndex(bytes)) <= 102400
  {
    var i := UnitIndex(bytes);
    var p := Pow(Kilo, i);
    var h := RoundedHundredths(bytes, i);
    RoundedIsNearest(bytes, i);
    assert Pow(Kilo, i + 1) == 1024 * p;
    MulMonotonic(200, p, bytes);
    MulMonotonic(200, bytes, 1024 * p - 1);
    if h < 100 {
      MulMonotonic(2 * p, h, 99);
    }
    if h > 102400 {
      MulMonotonic(2 * p, 102401, h);
    }
  }

  /** The name `sizes[i]` prints: JavaScript's `undefined` past the end of the list. */
  function UnitName(i: nat): string
  {
    if i < |SizeUnits| then SizeUnits[i] else "undefined"
  }

  function DigitChar(d: nat): char
    requires d < 10
  {
    ('0' as int + d) as char
  }

  predicate AllDigits(s: string)
  {
    forall k :: 0 <= k < |s| ==> '0' <= s[k] <= '9'
  }

  /** JavaScript's printing of a non-negative integer. */
  function DecimalText(n: nat): (s: string)
    ensures |s| >= 1
    ensures AllDigits(s)
  {
    if n < 10 then [DigitChar(n)] else DecimalText(n / 10) + [DigitChar(n % 10)]
  }

  /**
   * JavaScript's printing of `h / 100` for a whole number `h`: the shortest
   * decimal, so trailing zeros of the fraction and a bare point are dropped.
   */
  function HundredthsText(h: nat): string
  {
    var whole, frac := DecimalText(h / 100), h % 100;
    if frac == 0 then whole
    else if frac % 10 == 0 then whole + "." + [DigitChar(frac / 10)]
    else whole + "." + [DigitChar(frac / 10), DigitChar(frac % 10)]
  }

  /** `formatFileSize(bytes)`. */
  function FormatFileSize(bytes: nat): string
  {
    if bytes == 0 then "0 Bytes"
    else
      var i := UnitIndex(bytes);
      HundredthsText(RoundedHundredths(bytes, i)) + " " + UnitName(i)
  }

  /**
   * What a non-zero size prints as: a number and a unit name, where the unit
   * is the largest power of 1024 not above the size, and the number reads
   * back as the size in that unit rounded to the nearest hundredth, between
   * 1 and 1024.
   */
  lemma FormatFileSizeMeaning(bytes: nat)
    requires bytes >= 1
    ensures var i := UnitIndex(bytes);
      var p, h := Pow(Kilo, i), RoundedHundredths(bytes, i);
      && FormatFileSize(bytes) == HundredthsText(h) + " " + UnitName(i)
      && p <= bytes < Kilo * p
      && HundredthsValue(HundredthsText(h)) == Some(h)
      && 200 * bytes - p < 2 * p * h <= 200 * bytes + p
      && 100 <= h <= 102400
  {
    var i := UnitIndex(bytes);
    RoundedIsNearest(bytes, i);
    HundredthsRoundTrip(RoundedHundredths(bytes, i));
    ScaledValueBounds(bytes);
  }

  /** The size limit of the upload form, 10 MiB. */
  const MaxFileSize: nat := 10 * 1024 * 1024

  /** A size that passes the upload size check prints in Bytes, KB or MB. */
  lemma AcceptedSizeUnit(bytes: nat)
    requires 1 <= bytes <= MaxFileSize
    ensures UnitIndex(bytes) <= 2
    ensures UnitName(UnitIndex(bytes)) in {"Bytes", "KB", "MB"}
  {
  }

  /** Reads back the digits `DecimalText` prints. */
  function DecimalValue(s: string): (n: nat)
    requires AllDigits(s)
  {
    if s == [] then 0 else 10 * DecimalValue(s[..|s| - 1]) + (s[|s| - 1] - '0') as nat
  }

  lemma {:induction false} DecimalRoundTrip(n: nat)
    ensures DecimalValue(DecimalText(n)) == n
  {
    var s := DecimalText(n);
    if n >= 10 {
      DecimalRoundTrip(n / 10);
      assert s[..|s| - 1] == DecimalText(n / 10);
    }
  }

  /** Reads back a number printed by `HundredthsText`, in hundredths. */
  function HundredthsValue(s: string): Option<nat>
  {
    if AllDigits(s) then
      if |s| >= 1 then Some(100 * DecimalValue(s)) else None
    else if |s| >= 2 && s[|s| - 2] == '.' then WholeAndFraction(s[..|s| - 2], s[|s| - 1..], 10)
    else if |s| >= 3 && s[|s| - 3] == '.' then WholeAndFraction(s[..|s| - 3], s[|s| - 2..], 1)
    else None
  }

  /** The value, in hundredths, of digits `w` before the point and `f` after it, `f` counted in units of `scale` hundredths. */
  function WholeAndFraction(w: string, f: string, scale: nat): Option<nat>
  {
    if |w| >= 1 && AllDigits(w) && AllDigits(f) then Some(100 * DecimalValue(w) + scale * DecimalValue(f))
    else None
  }

  lemma DecimalValueOfDigit(d: nat)
    requires d < 10
    ensures AllDigits([DigitChar(d)]) && DecimalValue([DigitChar(d)]) == d
  {
  }

  lemma PointBreaksDigits(w: string, f: string)
    ensures !AllDigits(w + "." + f)
  {
    assert (w + "." + f)[|w|] == '.';
  }

  lemma ShapeOneDecimal(w: string, c: char)
    ensures HundredthsValue(w + "." + [c]) == WholeAndFraction(w, [c], 10)
  {
    var s := w + "." + [c];
    PointBreaksDigits(w, [c]);
    assert s[..|s| - 2] == w && s[|s| - 1..] == [c];
  }

  lemma ShapeTwoDecimals(w: string, c: char, c': char)
    requires c' != '.'
    ensures HundredthsValue(w + "." + [c, c']) == WholeAndFraction(w, [c, c'], 1)
  {
    var s := w + "." + [c, c'];
    PointBreaksDigits(w, [c, c']);
    assert s[|s| - 2] == c;
    assert s[..|s| - 3] == w && s[|s| - 2..] == [c, c'];
  }

  lemma OneDecimalValue(w: string, d: nat)
    requires |w| >= 1 && AllDigits(w)
    requires d < 10
    ensures WholeAndFraction(w, [DigitChar(d)], 10) == Some(100 * DecimalValue(w) + 10 * d)
  {
  }

  lemma TwoDecimalsValue(w: string, d: nat, e: nat)
    requires |w| >= 1 && AllDigits(w)
    requires d < 10 && e < 10
    ensures WholeAndFraction(w, [DigitChar(d), DigitChar(e)], 1) == Some(100 * DecimalValue(w) + 10 * d + e)
  {
    var f := [DigitChar(d), DigitChar(e)];
    DecimalValueOfDigit(d);
    DecimalValueOfDigit(e);
    assert f[..1] == [DigitChar(d)];
  }

  lemma HundredthsRoundTripOne(w: string, d: nat)
    requires |w| >= 1 && AllDigits(w)
    requires 1 <= d < 10
    ensures HundredthsValue(w + "." + [DigitChar(d)]) == Some(100 * DecimalValue(w) + 10 * d)
  {
    ShapeOneDecimal(w, DigitChar(d));
    OneDecimalValue(w, d);
  }

  lemma HundredthsRoundTripTwo(w: string, d: nat, e: nat)
    requires |w| >= 1 && AllDigits(w)
    requires d < 10 && 1 <= e < 10
    ensures HundredthsValue(w + "." + [DigitChar(d), DigitChar(e)]) == Some(100 * DecimalValue(w) + 10 * d + e)
  {
    ShapeTwoDecimals(w, DigitChar(d), DigitChar(e));
    TwoDecimalsValue(w, d, e);
  }

  /** The printed value reads back as the rounded value: printing loses nothing. */
  lemma HundredthsRoundTrip(h: nat)
    ensures HundredthsValue(HundredthsText(h)) == Some(h)
  {
    var w, frac := DecimalText(h / 100), h % 100;
    DecimalRoundTrip(h / 100);
    if frac == 0 {
    } else if frac % 10 == 0 {
      HundredthsRoundTripOne(w, frac / 10);
    } else {
      HundredthsRoundTripTwo(w, frac / 10, frac % 10);
    }
  }

  /** The worked examples of the size printer. */
  lemma FormatFileSizeExamples()
    ensures FormatFileSize(0) == "0 Bytes"
    ensures FormatFileSize(1024) == "1 KB"
    ensures FormatFileSize(1536) == "1.5 KB"
    ensures FormatFileSize(1048576) == "1 MB"
  {
    UnitIndexUnique(1024, 1);
    UnitIndexUnique(1536, 1);
    assert Pow(Kilo, 2) == 1048576;
    UnitIndexUnique(1048576, 2);
    assert RoundedHundredths(1536, 1) == 150;
    assert HundredthsText(150) == "1.5";
  }

  /** The icon names of `getNotificationIcon`, by severity. */
  const NotificationIcons: map<string, string> := map[
    "info" := "info-circle",
    "success" := "check-circle",
    "error" := "exclamation-circle",
    "warning" := "exclamation-triangle"
  ]

  /** `getNotificationIcon(type)`: the icon of the severity, `info-circle` for any other. */
  function NotificationIcon(kind: string): (icon: string)
    ensures icon in NotificationIcons.Values
  {
    assert NotificationIcons["info"] == "info-circle";
    if kind in NotificationIcons then NotificationIcons[kind] else "info-circle"
  }

  /** The mapping is total, sends the four severities to four distinct icons, and defaults to info. */
  lemma NotificationIconCases(kind: string)
    ensures kind == "success" <==> NotificationIcon(kind) == "check-circle"
    ensures kind == "error" <==> NotificationIcon(kind) == "exclamation-circle"
    ensures kind == "warning" <==> NotificationIcon(kind) == "exclamation-triangle"
    ensures kind !in {"success", "error", "warning"} <==> NotificationIcon(kind) == "info-circle"
  {
  }
}
