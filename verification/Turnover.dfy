/** Turnover amounts: decimal text with at most thirteen integer digits and two decimals, kept
    as text. Normalising it must give every amount exactly one spelling, the one the
    NUMERIC(15,2) columns print, because the audit diff compares spellings. */
module Turnover {
  import opened Options

  datatype Invalid = BadRequest

  const MAX_INTEGER_DIGITS := 13

  // ----- Text -----

  /** unicode.IsSpace */
  predicate IsSpace(c: char) {
    || c in {'\t', '\n', '\U{000B}', '\U{000C}', '\r', ' ', '\U{0085}', '\U{00A0}', '\U{1680}'}
    || '\U{2000}' <= c <= '\U{200A}'
    || c in {'\U{2028}', '\U{2029}', '\U{202F}', '\U{205F}', '\U{3000}'}
  }

  function TrimLeft(s: string, drop: char -> bool): string {
    if s != "" && drop(s[0]) then TrimLeft(s[1..], drop) else s
  }

  function TrimRight(s: string, drop: char -> bool): string {
    if s != "" && drop(s[|s| - 1]) then TrimRight(s[..|s| - 1], drop) else s
  }

  function TrimSpace(s: string): string {
    TrimRight(TrimLeft(s, IsSpace), IsSpace)
  }

  predicate IsDigit(c: char) {
    '0' <= c <= '9'
  }

  predicate Digits(s: string) {
    forall i | 0 <= i < |s| :: IsDigit(s[i])
  }

  function IndexOfDot(s: string): (k: nat)
    ensures k <= |s| && (k < |s| ==> s[k] == '.') && forall i | 0 <= i < k :: s[i] != '.'
  {
    if s == "" || s[0] == '.' then 0 else 1 + IndexOfDot(s[1..])
  }

  /** strings.Cut at the first dot. */
  function Cut(s: string): (string, string) {
    var k := IndexOfDot(s);
    (s[..k], if k < |s| then s[k + 1..] else "")
  }

  /** The pattern: one to thirteen digits and, optionally, a dot and one or two digits. */
  predicate Matches(s: string) {
    var k := IndexOfDot(s);
    && 1 <= k <= MAX_INTEGER_DIGITS && Digits(s[..k])
    && (k < |s| ==> 1 <= |s[k + 1..]| <= 2 && Digits(s[k + 1..]))
  }

  // ----- Amounts -----

  function DigitValue(c: char): nat
    requires IsDigit(c)
  {
    (c - '0') as nat
  }

  function DigitChar(d: nat): (c: char)
    requires d < 10
    ensures IsDigit(c) && DigitValue(c) == d
  {
    '0' + d as char
  }

  /** The number a string of digits writes. */
  function Number(s: string): nat
    requires Digits(s)
  {
    if s == "" then 0 else 10 * Number(s[..|s| - 1]) + DigitValue(s[|s| - 1])
  }

  /** The hundredths that one or two decimals, or none, write. */
  function Hundredths(fraction: string): nat
    requires Digits(fraction) && |fraction| <= 2
  {
    if |fraction| == 1 then 10 * Number(fraction) else Number(fraction)
  }

  predicate Legible(value: string) {
    TrimSpace(value) == "" || Matches(TrimSpace(value))
  }

  /** The amount an input stands for, in cents; nothing written means zero. */
  function Cents(value: string): nat
    requires Legible(value)
  {
    var s := TrimSpace(value);
    if s == "" then 0 else 100 * Number(Cut(s).0) + Hundredths(Cut(s).1)
  }

  function PrintNumber(n: nat): string {
    if n < 10 then [DigitChar(n)] else PrintNumber(n / 10) + [DigitChar(n % 10)]
  }

  /** How a NUMERIC(15,2) column spells an amount. */
  function Print(cents: nat): string {
    PrintNumber(cents / 100) + "." + [DigitChar(cents % 100 / 10), DigitChar(cents % 10)]
  }

  const CEILING := 1_000_000_000_000_000

  // ----- The normalisation -----

  /** normalizeTurnover: refuses exactly what the pattern refuses, and otherwise gives the
      column's spelling of the amount the input stands for. */
  method NormalizeTurnover(value: string) returns (r: Result<string, Invalid>)
    ensures r == if Legible(value) then Ok(Print(Cents(value))) else Err(BadRequest)
  {
    var trimmed := TrimSpace(value);
    if trimmed == "" {
      ZeroIsPrinted();
      return Ok("0.00");
    }
    if !Matches(trimmed) {
      return Err(BadRequest);
    }
    var (integerPart, fractionPart) := Cut(trimmed);
    ghost var integer, fraction := integerPart, fractionPart;
    assert Cents(value) == 100 * Number(integer) + Hundredths(fraction);
    while |fractionPart| < 2
      invariant |fractionPart| <= 2 && Digits(fractionPart)
      invariant Hundredths(fractionPart) == Hundredths(fraction)
      decreases 2 - |fractionPart|
    {
      PaddingKeeps(fractionPart);
      fractionPart := fractionPart + "0";
    }
    integerPart := TrimLeft(integerPart, IsZero);
    if integerPart == "" {
      integerPart := "0";
    }
    Assembled(integer, Hundredths(fraction), fractionPart);
    return Ok(integerPart + "." + fractionPart);
  }

  /** The stripped integer digits, or a zero for none, and two decimals: the printed amount. */
  lemma Assembled(integer: string, hundredths: nat, pair: string)
    requires Digits(integer) && Digits(pair) && |pair| == 2 && Hundredths(pair) == hundredths
    ensures var t := TrimLeft(integer, IsZero);
            (if t == "" then "0" else t) + "." + pair == Print(100 * Number(integer) + hundredths)
  {
    StrippedIsPrinted(integer);
    PairIsPrinted(pair);
    PrintParts(Number(integer), hundredths);
    assert PrintNumber(0) == "0";
  }

  predicate IsZero(c: char) {
    c == '0'
  }

  lemma ZeroIsPrinted()
    ensures Print(0) == "0.00"
  {}

  lemma PaddingKeeps(fraction: string)
    requires |fraction| < 2 && Digits(fraction)
    ensures Digits(fraction + "0") && Hundredths(fraction + "0") == Hundredths(fraction)
  {
    var padded := fraction + "0";
    assert padded[..|fraction|] == fraction;
    if |fraction| == 1 {
      assert Number(padded) == 10 * Number(fraction);
    } else {
      assert padded == "0";
      assert Number("0") == 10 * Number("0"[..0]) + DigitValue('0');
    }
  }

  lemma PairIsPrinted(fraction: string)
    requires |fraction| == 2 && Digits(fraction)
    ensures Hundredths(fraction) < 100
    ensures fraction == [DigitChar(Hundredths(fraction) / 10), DigitChar(Hundredths(fraction) % 10)]
  {
    var a, b := DigitValue(fraction[0]), DigitValue(fraction[1]);
    assert fraction[..1][..0] == "";
    assert Number(fraction[..1]) == a;
    assert Number(fraction) == 10 * a + b;
  }

  lemma PrintParts(whole: nat, hundredths: nat)
    requires hundredths < 100
    ensures Print(100 * whole + hundredths)
            == PrintNumber(whole) + "." + [DigitChar(hundredths / 10), DigitChar(hundredths % 10)]
  {
    Parts(whole, hundredths);
  }

  lemma Parts(whole: nat, hundredths: nat)
    requires hundredths < 100
    ensures (100 * whole + hundredths) / 100 == whole
    ensures (100 * whole + hundredths) % 100 == hundredths
    ensures (100 * whole + hundredths) % 10 == hundredths % 10
  {
    var cents := 100 * whole + hundredths;
    Hundreds(cents, whole, hundredths);
    Tens(cents, 10 * whole + hundredths / 10, hundredths % 10);
  }

  lemma Hundreds(n: nat, q: nat, r: nat)
    requires r < 100 && n == 100 * q + r
    ensures n / 100 == q && n % 100 == r
  {}

  lemma Tens(n: nat, q: nat, r: nat)
    requires r < 10 && n == 10 * q + r
    ensures n / 10 == q && n % 10 == r
  {}

  /** Stripping zeros from the left of p + [d]. */
  lemma {:induction false} StripSnoc(p: string, d: char)
    ensures TrimLeft(p + [d], IsZero) == if TrimLeft(p, IsZero) != "" then TrimLeft(p, IsZero) + [d]
              else TrimLeft([d], IsZero)
  {
    if p == "" {
      assert p + [d] == [d];
    } else {
      assert (p + [d])[1..] == p[1..] + [d];
      StripSnoc(p[1..], d);
    }
  }

  /** Digits without their leading zeros are the spelling of their number; "0" for none. */
  lemma {:induction false} StrippedIsPrinted(s: string)
    requires Digits(s)
    ensures var t := TrimLeft(s, IsZero);
            if t == "" then Number(s) == 0 else Number(s) > 0 && t == PrintNumber(Number(s))
  {
    if s != "" {
      var p, d := s[..|s| - 1], s[|s| - 1];
      assert s == p + [d];
      StripSnoc(p, d);
      StrippedIsPrinted(p);
      if TrimLeft(p, IsZero) == "" { StripDigit(d, Number(s)); } else { PrintSnoc(Number(p), d, Number(s)); }
    }
  }

  lemma StripDigit(d: char, m: nat)
    requires IsDigit(d) && m == DigitValue(d)
    ensures TrimLeft([d], IsZero) == if m == 0 then "" else PrintNumber(m)
  {
    assert [d][1..] == "";
  }

  lemma PrintSnoc(n: nat, d: char, m: nat)
    requires n > 0 && IsDigit(d) && m == 10 * n + DigitValue(d)
    ensures PrintNumber(m) == PrintNumber(n) + [d]
  {
    Tens(m, n, DigitValue(d));
  }

  // ----- One spelling for every amount -----

  lemma {:induction false} NumberIsPrinted(n: nat)
    ensures Digits(PrintNumber(n)) && Number(PrintNumber(n)) == n && |PrintNumber(n)| >= 1
  {
    if n >= 10 {
      NumberIsPrinted(n / 10);
      var p := PrintNumber(n / 10);
      assert (p + [DigitChar(n % 10)])[..|p|] == p;
    }
  }

  function Power(k: nat): nat {
    if k == 0 then 1 else 10 * Power(k - 1)
  }

  /** Fewer than k + 1 digits for numbers below 10^k. */
  lemma {:induction false} PrintLength(n: nat, k: nat)
    requires n < Power(k) && k >= 1
    ensures |PrintNumber(n)| <= k
  {
    assert Power(1) == 10 * Power(0);
    if n >= 10 {
      PrintLength(n / 10, k - 1);
    }
  }

  lemma {:induction false} NumberBound(s: string)
    requires Digits(s)
    ensures Number(s) < Power(|s|)
  {
    if s != "" { NumberBound(s[..|s| - 1]); }
  }

  lemma {:induction false} PowerGrows(j: nat, k: nat)
    requires j <= k
    ensures Power(j) <= Power(k)
  {
    if j < k { PowerGrows(j, k - 1); }
  }

  lemma PowerOfThirteen()
    ensures Power(13) == 10_000_000_000_000
  {
    assert Power(4) == 10_000 && Power(8) == 100_000_000 && Power(12) == 1_000_000_000_000;
  }

  lemma {:induction false} DotAfterDigits(s: string, k: nat)
    requires k < |s| && Digits(s[..k]) && s[k] == '.'
    ensures IndexOfDot(s) == k
  {
    if k > 0 {
      assert IsDigit(s[..k][0]);
      assert s[1..][..k - 1] == s[..k][1..];
      DotAfterDigits(s[1..], k - 1);
    }
  }

  lemma NothingToTrim(s: string)
    requires s != "" && !IsSpace(s[0]) && !IsSpace(s[|s| - 1])
    ensures TrimSpace(s) == s
  {}

  /** Every accepted input is an amount the column can hold. */
  lemma AmountFits(value: string)
    requires Legible(value)
    ensures Cents(value) < CEILING
  {
    var s := TrimSpace(value);
    if s != "" {
      var (integer, fraction) := Cut(s);
      NumberBound(integer);
      PowerGrows(|integer|, 13);
      PowerOfThirteen();
      HundredthsBound(fraction);
    }
  }

  lemma HundredthsBound(fraction: string)
    requires Digits(fraction) && |fraction| <= 2
    ensures Hundredths(fraction) < 100
  {
    NumberBound(fraction);
    assert Power(0) == 1 && Power(1) == 10 && Power(2) == 100;
  }

  lemma DigitIsNoSpace(c: char)
    requires IsDigit(c)
    ensures !IsSpace(c)
  {}

  lemma PrintTrimmed(cents: nat)
    ensures TrimSpace(Print(cents)) == Print(cents)
  {
    var whole, s := PrintNumber(cents / 100), Print(cents);
    NumberIsPrinted(cents / 100);
    assert s[0] == whole[0];
    DigitIsNoSpace(s[0]);
    DigitIsNoSpace(s[|s| - 1]);
    NothingToTrim(s);
  }

  lemma PrintCut(cents: nat)
    ensures var whole := PrintNumber(cents / 100);
            && IndexOfDot(Print(cents)) == |whole|
            && Cut(Print(cents)) == (whole, [DigitChar(cents % 100 / 10), DigitChar(cents % 10)])
  {
    NumberIsPrinted(cents / 100);
    CutAtDot(PrintNumber(cents / 100), [DigitChar(cents % 100 / 10), DigitChar(cents % 10)]);
  }

  lemma CutAtDot(whole: string, tail: string)
    requires Digits(whole)
    ensures IndexOfDot(whole + "." + tail) == |whole| && Cut(whole + "." + tail) == (whole, tail)
  {
    var s := whole + "." + tail;
    assert s[..|whole|] == whole && s[|whole| + 1..] == tail;
    DotAfterDigits(s, |whole|);
  }

  /** The column's spelling reads back as the same amount: normalising is inverse to it. */
  lemma PrintReadsBack(cents: nat)
    requires cents < CEILING
    ensures Legible(Print(cents)) && Cents(Print(cents)) == cents
  {
    PrintTrimmed(cents);
    PrintCut(cents);
    NumberIsPrinted(cents / 100);
    PowerOfThirteen();
    PrintLength(cents / 100, 13);
    TailValue(cents);
  }

  lemma TailValue(cents: nat)
    ensures var tail := [DigitChar(cents % 100 / 10), DigitChar(cents % 10)];
            Digits(tail) && Hundredths(tail) == cents % 100
  {
    PairValue(cents % 100 / 10, cents % 10);
    Tens(cents, cents / 100 * 10 + cents % 100 / 10, cents % 100 % 10);
  }

  lemma PairValue(a: nat, b: nat)
    requires a < 10 && b < 10
    ensures var pair := [DigitChar(a), DigitChar(b)]; Digits(pair) && Hundredths(pair) == 10 * a + b
  {
    var c, d := DigitChar(a), DigitChar(b);
    assert [c, d][..1] == [c] && [c][..0] == "";
    assert Number([c]) == 10 * Number([c][..0]) + DigitValue(c);
    assert Number([c, d]) == 10 * Number([c, d][..1]) + DigitValue(d);
  }

  /** Normalising twice is normalising once. */
  lemma Idempotent(value: string)
    requires Legible(value)
    ensures var once := Print(Cents(value)); Legible(once) && Print(Cents(once)) == once
  {
    AmountFits(value);
    PrintReadsBack(Cents(value));
  }

  /** Two inputs get the same spelling exactly when they stand for the same amount; and an
      amount read from the column differs from a normalised input, as text, exactly when the
      amounts differ. */
  lemma SpellingsDifferIff(stored: nat, a: string, b: string)
    requires stored < CEILING && Legible(a) && Legible(b)
    ensures Print(Cents(a)) == Print(Cents(b)) <==> Cents(a) == Cents(b)
    ensures Print(Cents(a)) != Print(stored) <==> Cents(a) != stored
  {
    AmountFits(a);
    AmountFits(b);
    PrintReadsBack(Cents(a));
    PrintReadsBack(Cents(b));
    PrintReadsBack(stored);
  }

  /** Text as the column spells it: nothing to trim, no leading zero, two decimals. */
  predicate ColumnSpelled(text: string) {
    && text != "" && !IsSpace(text[0]) && !IsSpace(text[|text| - 1])
    && Matches(text) && |Cut(text).1| == 2
    && (text[0] == '0' ==> IndexOfDot(text) == 1)
  }

  lemma {:induction false} NoLeadingZero(n: nat)
    ensures PrintNumber(n) != "" && (PrintNumber(n)[0] == '0' ==> n == 0)
  {
    if n >= 10 { NoLeadingZero(n / 10); }
  }

  /** What the column prints, and only that, is spelled so. */
  lemma SpelledIff(text: string)
    requires Legible(text) && TrimSpace(text) != ""
    ensures text == Print(Cents(text)) <==> ColumnSpelled(text)
  {
    AmountFits(text);
    if text == Print(Cents(text)) { PrintIsSpelled(Cents(text)); }
    if ColumnSpelled(text) { SpelledIsPrinted(text); }
  }

  lemma PrintIsSpelled(cents: nat)
    requires cents < CEILING
    ensures ColumnSpelled(Print(cents))
  {
    PrintReadsBack(cents);
    PrintTrimmed(cents);
    PrintCut(cents);
    NumberIsPrinted(cents / 100);
    NoLeadingZero(cents / 100);
    DigitIsNoSpace(Print(cents)[0]);
    DigitIsNoSpace(Print(cents)[|Print(cents)| - 1]);
  }

  lemma SpelledIsPrinted(text: string)
    requires ColumnSpelled(text)
    ensures TrimSpace(text) == text && text == Print(Cents(text))
  {
    NothingToTrim(text);
    var (integer, fraction) := Cut(text);
    assert text == integer + "." + fraction;
    Assembled(integer, Hundredths(fraction), fraction);
    assert integer[0] == text[0];
    if text[0] == '0' {
      assert integer == "0";
      assert TrimLeft("0", IsZero) == TrimLeft("0"[1..], IsZero) == "";
    }
  }

  // ----- What is accepted -----

  ghost predicate Plain(s: string) {
    forall k | 0 <= k < |s| :: '0' <= s[k] <= '9'
  }

  /** An amount as a caller writes it: the integer digits, alone or before a dot and decimals. */
  ghost predicate WrittenAs(s: string, integer: string, decimals: string) {
    && Plain(integer) && 1 <= |integer| <= 13
    && (s == integer || (Plain(decimals) && 1 <= |decimals| <= 2 && s == integer + "." + decimals))
  }

  /** The pattern accepts exactly one to thirteen digits, alone or with one or two decimals. */
  lemma MatchesIff(s: string)
    ensures Matches(s) <==> exists integer, decimals :: WrittenAs(s, integer, decimals)
  {
    if Matches(s) {
      var k := IndexOfDot(s);
      if k == |s| {
        assert s[..k] == s;
        assert WrittenAs(s, s, "");
      } else {
        assert s == s[..k] + "." + s[k + 1..];
        assert WrittenAs(s, s[..k], s[k + 1..]);
      }
    }
    if integer, decimals :| WrittenAs(s, integer, decimals) {
      if s == integer {
        NoDot(s);
        assert s[..|s|] == s;
      } else {
        CutAtDot(integer, decimals);
        assert s[..|integer|] == integer && s[|integer| + 1..] == decimals;
      }
    }
  }

  lemma {:induction false} NoDot(s: string)
    requires Plain(s)
    ensures IndexOfDot(s) == |s|
  {
    if s != "" {
      assert '0' <= s[0] <= '9';
      NoDot(s[1..]);
    }
  }

  /** What such an amount is worth: a missing or single decimal counts as if zeros followed. */
  lemma WorthOf(s: string, integer: string, decimals: string)
    requires WrittenAs(s, integer, decimals)
    ensures Legible(s)
    ensures s == integer ==> Cents(s) == 100 * Number(integer)
    ensures s != integer && |decimals| == 1 ==> Cents(s) == 100 * Number(integer) + 10 * DigitValue(decimals[0])
    ensures s != integer && |decimals| == 2 ==>
              Cents(s) == 100 * Number(integer) + 10 * DigitValue(decimals[0]) + DigitValue(decimals[1])
  {
    MatchesIff(s);
    assert s[0] == integer[0];
    DigitIsNoSpace(s[0]);
    DigitIsNoSpace(s[|s| - 1]);
    NothingToTrim(s);
    if s == integer {
      NoDot(s);
      assert s[..|s|] == s;
    } else {
      CutAtDot(integer, decimals);
      if |decimals| == 1 { OneDecimal(decimals); } else { PairIsPrinted(decimals); TwoDecimals(decimals); }
    }
  }

  lemma OneDecimal(d: string)
    requires Digits(d) && |d| == 1
    ensures Hundredths(d) == 10 * DigitValue(d[0])
  {
    assert d[..0] == "";
    assert Number(d) == 10 * Number(d[..0]) + DigitValue(d[0]);
  }

  lemma TwoDecimals(d: string)
    requires Digits(d) && |d| == 2
    ensures Hundredths(d) == 10 * DigitValue(d[0]) + DigitValue(d[1])
  {
    assert d == [d[0], d[1]] && DigitChar(DigitValue(d[0])) == d[0] && DigitChar(DigitValue(d[1])) == d[1];
    PairValue(DigitValue(d[0]), DigitValue(d[1]));
  }

  /** Trimming takes white space off both ends and nothing else. */
  lemma TrimTakesSpace(s: string) returns (left: string, right: string)
    ensures s == left + TrimSpace(s) + right
    ensures (forall k | 0 <= k < |left| :: IsSpace(left[k])) && (forall k | 0 <= k < |right| :: IsSpace(right[k]))
    ensures TrimSpace(s) != "" ==> !IsSpace(TrimSpace(s)[0]) && !IsSpace(TrimSpace(s)[|TrimSpace(s)| - 1])
  {
    left := LeftTrimmed(s);
    right := RightTrimmed(TrimLeft(s, IsSpace));
  }

  lemma {:induction false} LeftTrimmed(s: string) returns (left: string)
    ensures s == left + TrimLeft(s, IsSpace) && forall k | 0 <= k < |left| :: IsSpace(left[k])
    ensures TrimLeft(s, IsSpace) != "" ==> !IsSpace(TrimLeft(s, IsSpace)[0])
  {
    left := "";
    if s != "" && IsSpace(s[0]) {
      var rest := LeftTrimmed(s[1..]);
      left := [s[0]] + rest;
    }
  }

  lemma {:induction false} RightTrimmed(s: string) returns (right: string)
    ensures s == TrimRight(s, IsSpace) + right && forall k | 0 <= k < |right| :: IsSpace(right[k])
    ensures TrimRight(s, IsSpace) != "" ==>
              TrimRight(s, IsSpace)[0] == s[0] && !IsSpace(TrimRight(s, IsSpace)[|TrimRight(s, IsSpace)| - 1])
  {
    right := "";
    if s != "" && IsSpace(s[|s| - 1]) {
      var rest := RightTrimmed(s[..|s| - 1]);
      right := rest + [s[|s| - 1]];
    }
  }
}
