/**
 * Amounts of money as text: whole micro-units printed as decimals with at most six places, and read
 * back from them. Numbers are exact.
 */
module Decimals {
  predicate IsDigit(c: char) { '0' <= c <= '9' }

  predicate IsHexDigit(c: char) { IsDigit(c) || 'a' <= c <= 'f' }

  predicate AllDigits(s: string) { forall i | 0 <= i < |s| :: IsDigit(s[i]) }

  function Digit(n: nat): (c: char)
    requires n < 10
    ensures IsDigit(c) && c as int - '0' as int == n
  {
    ('0' as int + n) as char
  }

  /** A number as it is written: no leading zero but in 0 itself. */
  function NatText(n: nat): (s: string)
    ensures s != "" && AllDigits(s)
    ensures s[0] == '0' ==> n == 0
  {
    if n < 10 then [Digit(n)] else NatText(n / 10) + [Digit(n % 10)]
  }

  function TextNat(s: string): nat
    requires AllDigits(s)
  {
    if s == "" then 0
    else TextNat(s[..|s| - 1]) * 10 + (s[|s| - 1] as int - '0' as int)
  }

  lemma {:induction false} NatTextReads(n: nat)
    ensures TextNat(NatText(n)) == n
  {
    if n >= 10 {
      NatTextReads(n / 10);
      assert NatText(n)[..|NatText(n)| - 1] == NatText(n / 10);
    }
  }

  lemma NatTextInjective(a: nat, b: nat)
    requires NatText(a) == NatText(b)
    ensures a == b
  {
    NatTextReads(a);
    NatTextReads(b);
  }

  function PadStart(s: string, width: nat): (r: string)
    ensures |r| == (if |s| < width then width else |s|)
    ensures AllDigits(s) ==> AllDigits(r)
    decreases width - |s|
  {
    if |s| >= width then s else PadStart("0" + s, width)
  }

  function PadEnd(s: string, width: nat): (r: string)
    ensures |r| == (if |s| < width then width else |s|)
    ensures AllDigits(s) ==> AllDigits(r)
    decreases width - |s|
  {
    if |s| >= width then s else PadEnd(s + "0", width)
  }

  /** Without its trailing zeros. */
  function StripEnd(s: string): (r: string)
    ensures r <= s && (AllDigits(s) ==> AllDigits(r))
    ensures r != "" ==> r[|r| - 1] != '0'
  {
    if s != "" && s[|s| - 1] == '0' then StripEnd(s[..|s| - 1]) else s
  }

  /** Without its leading zeros, but for the last digit. */
  function StripStart(s: string): (r: string)
    ensures AllDigits(s) ==> AllDigits(r)
  {
    if |s| > 1 && s[0] == '0' then StripStart(s[1..]) else s
  }

  lemma {:induction false} LeadingZero(s: string)
    requires AllDigits(s)
    ensures TextNat("0" + s) == TextNat(s)
  {
    if s != "" {
      LeadingZero(s[..|s| - 1]);
      assert ("0" + s)[..|s|] == "0" + s[..|s| - 1];
    }
  }

  lemma {:induction false} PadStartReads(s: string, width: nat)
    requires AllDigits(s)
    ensures TextNat(PadStart(s, width)) == TextNat(s)
    decreases width - |s|
  {
    if |s| < width {
      LeadingZero(s);
      PadStartReads("0" + s, width);
    }
  }

  /** Two digit strings of one length that read the same are the same. */
  lemma {:induction false} SameLengthSameText(a: string, b: string)
    requires AllDigits(a) && AllDigits(b) && |a| == |b| && TextNat(a) == TextNat(b)
    ensures a == b
  {
    if a != "" {
      var n := |a| - 1;
      SameLengthSameText(a[..n], b[..n]);
      assert a == a[..n] + [a[n]] && b == b[..n] + [b[n]];
    }
  }

  /** A digit string is its number, written out and padded to its length. */
  lemma {:induction false} PadStartRestores(s: string)
    requires AllDigits(s) && s != ""
    ensures |NatText(TextNat(s))| <= |s| && PadStart(NatText(TextNat(s)), |s|) == s
  {
    TextIsShortest(s);
    PadStartReads(NatText(TextNat(s)), |s|);
    NatTextReads(TextNat(s));
    SameLengthSameText(PadStart(NatText(TextNat(s)), |s|), s);
  }

  lemma {:induction false} TextIsShortest(s: string)
    requires AllDigits(s) && s != ""
    ensures |NatText(TextNat(s))| <= |s|
  {
    if |s| > 1 {
      var front := s[..|s| - 1];
      TextIsShortest(front);
      OneDigitMore(TextNat(front), TextNat(s) - 10 * TextNat(front));
    }
  }

  lemma OneDigitMore(n: nat, digit: nat)
    requires digit < 10
    ensures |NatText(10 * n + digit)| <= |NatText(n)| + 1
  {
    if n > 0 { assert (10 * n + digit) / 10 == n; }
  }

  lemma {:induction false} StripStartReads(s: string)
    requires AllDigits(s)
    ensures TextNat(StripStart(s)) == TextNat(s)
  {
    if |s| > 1 && s[0] == '0' {
      assert s == "0" + s[1..];
      LeadingZero(s[1..]);
      StripStartReads(s[1..]);
    }
  }

  /** A digit string's number is written as the string without its leading zeros. */
  lemma {:induction false} NatTextOf(s: string)
    requires AllDigits(s) && s != ""
    ensures NatText(TextNat(s)) == StripStart(s)
  {
    if |s| > 1 && s[0] == '0' {
      StripStartReads(s);
      StripStartReads(s[1..]);
      NatTextOf(s[1..]);
    } else {
      PadStartRestores(s);
      var t := NatText(TextNat(s));
      if |t| < |s| { PadStartHead(t, |s|); }
    }
  }

  lemma {:induction false} PadStartHead(s: string, width: nat)
    requires |s| < width
    ensures PadStart(s, width)[0] == '0'
    decreases width - |s|
  {
    if |s| + 1 < width { PadStartHead("0" + s, width); }
  }

  lemma {:induction false} PadEndRestores(s: string)
    ensures PadEnd(StripEnd(s), |s|) == s
  {
    if s != "" && s[|s| - 1] == '0' {
      PadEndRestores(s[..|s| - 1]);
      PadEndStep(StripEnd(s), |s| - 1);
      assert s == s[..|s| - 1] + "0";
    }
  }

  lemma {:induction false} PadEndStep(s: string, width: nat)
    requires |s| <= width
    ensures PadEnd(s, width + 1) == PadEnd(s, width) + "0"
    decreases width - |s|
  {
    if |s| < width { PadEndStep(s + "0", width); }
  }

  lemma {:induction false} StripEndPadded(s: string, width: nat)
    ensures StripEnd(PadEnd(s, width)) == StripEnd(s)
    decreases width - |s|
  {
    if |s| < width {
      StripEndPadded(s + "0", width);
      assert (s + "0")[..|s|] == s;
    }
  }

  // ---- Printing ----------------------------------------------------------------------------

  const MICRO := 1000000

  /** Micro-units as a decimal, exactly: 2499600 is 2.4996. */
  function Print(micro: nat): string {
    var fraction := StripEnd(PadStart(NatText(micro % MICRO), 6));
    NatText(micro / MICRO) + (if fraction == "" then "" else "." + fraction)
  }

  // ---- Reading -----------------------------------------------------------------------------

  /** What stands before the first dot. */
  function Whole(s: string): (r: string)
    ensures '.' !in r && r <= s
    ensures |r| == |s| || s[|r|] == '.'
  {
    if s == "" || s[0] == '.' then "" else [s[0]] + Whole(s[1..])
  }

  predicate HasDot(s: string) { |Whole(s)| < |s| }

  /** What follows the first dot. */
  function Fraction(s: string): string {
    if HasDot(s) then s[|Whole(s)| + 1..] else ""
  }

  /** Digits, then perhaps a dot and one to six digits. */
  predicate IsDecimal(s: string) {
    && Whole(s) != "" && AllDigits(Whole(s))
    && AllDigits(Fraction(s)) && (HasDot(s) ==> 1 <= |Fraction(s)| <= 6)
  }

  function Micro(s: string): nat
    requires IsDecimal(s)
  {
    TextNat(Whole(s)) * MICRO + TextNat(PadEnd(Fraction(s), 6))
  }

  /** The same amount without superfluous zeros. */
  function Canonical(s: string): string {
    var fraction := StripEnd(Fraction(s));
    StripStart(Whole(s)) + (if fraction == "" then "" else "." + fraction)
  }

  lemma {:induction false} WholeOf(a: string, b: string)
    requires '.' !in a && (b == "" || b[0] == '.')
    ensures Whole(a + b) == a
  {
    if a == "" {
      assert a + b == b;
    } else {
      assert (a + b)[1..] == a[1..] + b;
      WholeOf(a[1..], b);
    }
  }

  /** A dot at `k`, digits before it, and one to six behind it. */
  predicate HasPlaces(s: string, k: nat) {
    k < |s| && s[k] == '.' && k > 0 && 0 < |s| - 1 - k < 7
    && forall i | 0 <= i < |s| && i != k :: '0' <= s[i] <= '9'
  }

  predicate AreDigits(s: string) { forall i | 0 <= i < |s| :: '0' <= s[i] <= '9' }

  /** Digits and nothing else; or digits, a dot and one to six digits. */
  lemma DecimalExactly(s: string)
    ensures IsDecimal(s) <==> (s != "" && AreDigits(s)) || exists k: nat :: HasPlaces(s, k)
  {
    if IsDecimal(s) { DecimalHasPlaces(s); }
    if k: nat :| HasPlaces(s, k) { PlacesAreDecimal(s, k); }
    if s != "" && AreDigits(s) { DigitsAreDecimal(s); }
  }

  lemma DecimalHasPlaces(s: string)
    requires IsDecimal(s)
    ensures if HasDot(s) then HasPlaces(s, |Whole(s)|) else s != "" && AreDigits(s)
  {
    var w := |Whole(s)|;
    forall i | 0 <= i < |s| && (i == w ==> !HasDot(s)) ensures '0' <= s[i] <= '9' {
      if i < w { assert IsDigit(Whole(s)[i]); } else { assert IsDigit(Fraction(s)[i - w - 1]); }
    }
  }

  lemma PlacesAreDecimal(s: string, k: nat)
    requires HasPlaces(s, k)
    ensures IsDecimal(s)
  {
    assert s == s[..k] + s[k..];
    WholeOf(s[..k], s[k..]);
  }

  lemma DigitsAreDecimal(s: string)
    requires s != "" && AreDigits(s)
    ensures IsDecimal(s)
  {
    assert s + "" == s;
    WholeOf(s, "");
  }

  /** A text is its number of millionths: whole ones, and of a place behind the dot each a tenth of the one before. */
  lemma MicroExactly(s: string, whole: string, fraction: string)
    requires AllDigits(whole) && whole != "" && AllDigits(fraction) && |fraction| < 7
    requires s == if fraction == "" then whole else whole + ['.'] + fraction
    ensures IsDecimal(s) && Micro(s) == TextNat(whole) * 1000000 + TextNat(fraction) * Power10(6 - |fraction|)
  {
    var small := TextNat(fraction) * Power10(6 - |fraction|);
    PadEndReads(fraction, 6);
    PartsOf(s, whole, fraction);
    MicroOfParts(s, whole, fraction, small);
  }

  lemma MicroOfParts(s: string, whole: string, fraction: string, small: nat)
    requires AllDigits(whole) && whole != "" && AllDigits(fraction) && |fraction| < 7
    requires Whole(s) == whole && Fraction(s) == fraction && (HasDot(s) ==> fraction != "")
    requires TextNat(PadEnd(fraction, 6)) == small
    ensures IsDecimal(s) && Micro(s) == TextNat(whole) * 1000000 + small
  {
  }

  lemma PartsOf(s: string, whole: string, fraction: string)
    requires AllDigits(whole) && s == if fraction == "" then whole else whole + ['.'] + fraction
    ensures Whole(s) == whole && Fraction(s) == fraction && (HasDot(s) <==> fraction != "")
  {
    if fraction == "" {
      assert whole + "" == whole;
      WholeOf(whole, "");
    } else {
      assert whole + (['.'] + fraction) == s;
      WholeOf(whole, ['.'] + fraction);
    }
  }

  lemma ZeroBehind(s: string)
    requires AllDigits(s)
    ensures AllDigits(s + "0") && TextNat(s + "0") == TextNat(s) * 10
  {
    assert (s + "0")[..|s|] == s;
  }

  lemma {:induction false} PadEndReads(s: string, width: nat)
    requires AllDigits(s) && |s| <= width
    ensures TextNat(PadEnd(s, width)) == TextNat(s) * Power10(width - |s|)
    decreases width - |s|
  {
    if |s| < width {
      PadEndReads(s + "0", width);
      ZeroBehind(s);
      TimesTen(TextNat(s), width - |s|);
    }
  }

  lemma TimesTen(n: nat, k: nat)
    requires k > 0
    ensures n * 10 * Power10(k - 1) == n * Power10(k)
  {
    var p := Power10(k - 1);
    assert n * 10 * p == n * (10 * p);
  }

  /** Digits read as a number in base ten. */
  lemma TextNatExactly(s: string, c: char)
    requires AllDigits(s) && '0' <= c <= '9'
    ensures TextNat("") == 0 && AllDigits(s + [c]) && TextNat(s + [c]) == 10 * TextNat(s) + (c as int - 48)
  {
    assert (s + [c])[..|s|] == s;
  }

  /** Every amount is read back from its text as exactly itself. */
  lemma PrintReads(micro: nat)
    ensures IsDecimal(Print(micro)) && Micro(Print(micro)) == micro
  {
    var padded := PadStart(NatText(micro % MICRO), 6);
    var fraction := StripEnd(padded);
    assert Power10(6) == MICRO;
    NatTextLength(micro % MICRO, 6);
    PadStartReads(NatText(micro % MICRO), 6);
    NatTextReads(micro % MICRO);
    NatTextReads(micro / MICRO);
    PadEndRestores(padded);
    WholeOf(NatText(micro / MICRO), if fraction == "" then "" else "." + fraction);
    assert Fraction(Print(micro)) == fraction;
  }

  lemma {:induction false} NatTextLength(n: nat, digits: nat)
    requires digits >= 1 && n < Power10(digits)
    ensures |NatText(n)| <= digits
  {
    if n >= 10 { NatTextLength(n / 10, digits - 1); }
  }

  /** An accepted text reprints as itself, without superfluous zeros. */
  lemma ReadPrints(s: string)
    requires IsDecimal(s)
    ensures Print(Micro(s)) == Canonical(s)
  {
    var padded := PadEnd(Fraction(s), 6);
    PadStartRestores(padded);
    TextBelow(padded);
    StripEndPadded(Fraction(s), 6);
    NatTextOf(Whole(s));
    assert Micro(s) / MICRO == TextNat(Whole(s)) && Micro(s) % MICRO == TextNat(padded);
  }

  function Power10(k: nat): (p: nat)
    ensures p > 0
  {
    if k == 0 then 1 else 10 * Power10(k - 1)
  }

  lemma {:induction false} TextBelow(s: string)
    requires AllDigits(s)
    ensures TextNat(s) < Power10(|s|)
    ensures |s| == 6 ==> TextNat(s) < MICRO
  {
    if s != "" { TextBelow(s[..|s| - 1]); }
    if |s| == 6 { assert Power10(6) == MICRO; }
  }

  /** Two accepted texts are the same amount exactly when they differ in superfluous zeros only. */
  lemma SameAmount(a: string, b: string)
    requires IsDecimal(a) && IsDecimal(b)
    ensures Micro(a) == Micro(b) <==> Canonical(a) == Canonical(b)
  {
    ReadPrints(a);
    ReadPrints(b);
    PrintReads(Micro(a));
    PrintReads(Micro(b));
  }
}
