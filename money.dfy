/**
 * Monetary amounts: the one risk threshold that the workflow's approval rule
 * and both dashboards' high-risk tests share, the currency-cleaning parser of
 * the dashboards' ingestion step, and the `$1,234.56` display format whose
 * output that parser reads back.
 */
module Money {
  import opened Wrappers
  import opened Text

  /** Claims at or above this many currency units need a VP's authorisation. */
  const RiskThreshold: real := 500.0

  /** The high-risk test of the dashboards' exception queue and authorise button. */
  predicate IsHighRisk(amount: real) {
    amount >= RiskThreshold
  }

  /** The auto-approval test of the workflow's Action node and the dashboard banner. */
  predicate AutoApproves(amount: real) {
    amount < RiskThreshold
  }

  /** The `< 500` and `>= 500` tests split every amount between them. */
  lemma ThresholdTestsComplementary(amount: real)
    ensures AutoApproves(amount) <==> !IsHighRisk(amount)
  {
  }

  // ---------------------------------------------------------------- digits

  predicate IsDigit(c: char) {
    '0' <= c <= '9'
  }

  predicate AllDigits(s: string) {
    forall i :: 0 <= i < |s| ==> IsDigit(s[i])
  }

  function DigitValue(c: char): nat
    requires IsDigit(c)
  {
    c as int - '0' as int
  }

  function DigitChar(d: nat): (c: char)
    requires d < 10
    ensures IsDigit(c) && DigitValue(c) == d
  {
    ('0' as int + d) as char
  }

  function Pow10(n: nat): (p: nat)
    ensures p >= 1
  {
    if n == 0 then 1 else 10 * Pow10(n - 1)
  }

  /** The number a string of decimal digits denotes (0 for the empty string). */
  function DigitsValue(s: string): nat
    requires AllDigits(s)
  {
    if s == [] then 0 else DigitsValue(s[..|s| - 1]) * 10 + DigitValue(s[|s| - 1])
  }

  lemma DigitsValueSnoc(s: string, c: char)
    requires AllDigits(s) && IsDigit(c)
    ensures AllDigits(s + [c]) && DigitsValue(s + [c]) == DigitsValue(s) * 10 + DigitValue(c)
  {
    assert (s + [c])[..|s|] == s;
  }

  /** Reading digits is positional: the left part is worth `10^|b|` times its value. */
  lemma {:induction false} DigitsValueAppend(a: string, b: string)
    requires AllDigits(a) && AllDigits(b)
    ensures AllDigits(a + b)
    ensures DigitsValue(a + b) == DigitsValue(a) * Pow10(|b|) + DigitsValue(b)
    decreases |b|
  {
    if b == [] {
      assert a + b == a;
    } else {
      var b', c := b[..|b| - 1], b[|b| - 1];
      assert b == b' + [c];
      assert a + b == (a + b') + [c];
      DigitsValueAppend(a, b');
      DigitsValueSnoc(a + b', c);
      DigitsValueSnoc(b', c);
      assert Pow10(|b|) == 10 * Pow10(|b'|);
      ShiftDigits(DigitsValue(a), Pow10(|b'|), DigitsValue(b'), DigitValue(c));
    }
  }

  /** The arithmetic step of `DigitsValueAppend`: one more digit on the right. */
  lemma ShiftDigits(x: int, p: int, y: int, d: int)
    ensures (x * p + y) * 10 + d == x * (10 * p) + (y * 10 + d)
  {
  }

  // ---------------------------------------------------------------- display

  /** A natural number in decimal, without leading zeros. */
  function ShowNat(n: nat): (r: string)
    ensures |r| >= 1 && AllDigits(r) && DigitsValue(r) == n
    ensures forall i :: 0 <= i < |r| ==> r[i] != '.'
  {
    if n < 10 then
      assert DigitsValue([DigitChar(n)]) == DigitsValue([]) * 10 + n;
      [DigitChar(n)]
    else
      var front := ShowNat(n / 10);
      DigitsValueSnoc(front, DigitChar(n % 10));
      front + [DigitChar(n % 10)]
  }

  /** The last three digits of a group, zero-padded. */
  function Pad3(m: nat): (r: string)
    requires m < 1000
    ensures |r| == 3 && AllDigits(r) && DigitsValue(r) == m
  {
    var d0, d1, d2 := DigitChar(m / 100), DigitChar(m / 10 % 10), DigitChar(m % 10);
    assert DigitsValue([d0]) == m / 100 by {
      assert [d0][..0] == [];
    }
    DigitsValueSnoc([d0], d1);
    assert [d0] + [d1] == [d0, d1];
    DigitsValueSnoc([d0, d1], d2);
    assert [d0, d1] + [d2] == [d0, d1, d2];
    var q := m / 10;
    assert m / 100 == q / 10;
    assert q / 10 * 10 + q % 10 == q;
    assert m / 10 * 10 + m % 10 == m;
    [d0, d1, d2]
  }

  /** Two digits of cents, zero-padded. */
  function Pad2(m: nat): (r: string)
    requires m < 100
    ensures |r| == 2 && AllDigits(r) && DigitsValue(r) == m
  {
    var r := [DigitChar(m / 10), DigitChar(m % 10)];
    assert r[..1] == [r[0]];
    assert DigitsValue([r[0]]) == m / 10;
    r
  }

  /** Python's `f"{n:,}"` for a natural number: thousands separated by commas. */
  function Grouped(n: nat): string
    decreases n
  {
    if n < 1000 then ShowNat(n) else Grouped(n / 1000) + "," + Pad3(n % 1000)
  }

  /**
   * Python's `f"${x:,.2f}"`, the dashboards' display of an amount, for an
   * amount of whole cents: a `$`, a `-` when negative, the grouped units, a
   * point and two digits of cents.
   */
  function FormatMoney(cents: int): string {
    var c: nat := if cents < 0 then -cents else cents;
    "$" + ((if cents < 0 then "-" else "") + (Grouped(c / 100) + ("." + Pad2(c % 100))))
  }

  // ---------------------------------------------------------------- parsing

  /** The regular-expression replacement `[$,]` -> "": every `$` and `,` removed. */
  function RemoveSymbols(s: string): (r: string)
    ensures |r| <= |s|
    ensures forall i :: 0 <= i < |r| ==> r[i] != '$' && r[i] != ','
  {
    if s == [] then []
    else (if s[0] == '$' || s[0] == ',' then [] else [s[0]]) + RemoveSymbols(s[1..])
  }

  /** The removal works character by character, so it distributes over concatenation. */
  lemma {:induction false} RemoveSymbolsAppend(a: string, b: string)
    ensures RemoveSymbols(a + b) == RemoveSymbols(a) + RemoveSymbols(b)
    decreases |a|
  {
    if a != [] {
      assert (a + b)[1..] == a[1..] + b;
      RemoveSymbolsAppend(a[1..], b);
    } else {
      assert a + b == b;
    }
  }

  /** A string with no `$` and no `,` is left as it is. */
  lemma {:induction false} RemoveSymbolsKeepsClean(s: string)
    requires forall i :: 0 <= i < |s| ==> s[i] != '$' && s[i] != ','
    ensures RemoveSymbols(s) == s
    decreases |s|
  {
    if s != [] {
      RemoveSymbolsKeepsClean(s[1..]);
    }
  }

  /**
   * The number grammar accepted here: digits with an optional decimal point
   * and fraction, at least one digit in all (`12`, `12.`, `.5`, `12.50`).
   */
  function ParseUnsigned(t: string): (r: Option<real>)
    ensures r.Some? ==> r.value >= 0.0
  {
    match FindFrom(t, ".", 0)
    case None =>
      if |t| > 0 && AllDigits(t) then Some(DigitsValue(t) as real) else None
    case Some(k) =>
      var whole, fraction := t[..k], t[k + 1..];
      if |whole| + |fraction| > 0 && AllDigits(whole) && AllDigits(fraction)
      then Some(DigitsValue(whole) as real + DigitsValue(fraction) as real / Pow10(|fraction|) as real)
      else None
  }

  /** An optional `+` or `-` followed by an unsigned number; `None` when the text is not a number. */
  function ParseNumber(t: string): Option<real> {
    if |t| > 0 && (t[0] == '-' || t[0] == '+') then
      match ParseUnsigned(t[1..])
      case None => None
      case Some(v) => Some(if t[0] == '-' then -v else v)
    else ParseUnsigned(t)
  }

  /**
   * The dashboards' normalisation of one `Claimed_Amount` cell: remove every
   * `$` and `,`, read the rest as a number, and take 0 when that fails
   * (`to_numeric(..., errors='coerce').fillna(0.0)`).
   */
  function CleanAmount(s: string): real {
    ParseNumber(RemoveSymbols(s)).GetOr(0.0)
  }

  /** In `digits + "." + rest`, the first point is the one after the digits. */
  lemma FirstPointAfterDigits(d: string, rest: string)
    requires AllDigits(d)
    ensures FindFrom(d + ("." + rest), ".", 0) == Some(|d|)
  {
    var x := d + ("." + rest);
    assert x[|d|..|d| + 1] == ".";
    assert IsAt(x, ".", |d|);
    forall j | 0 <= j < |d| ensures !IsAt(x, ".", j) {
      if IsAt(x, ".", j) {
        IsAtChar(x, ".", j, 0);
        assert false;
      }
    }
  }

  /** The units and cents of a formatted amount, as the parser reads them. */
  lemma ParseUnitsAndCents(units: nat, cents: nat)
    requires cents < 100
    ensures AllDigits(RemoveSymbols(Grouped(units)))
    ensures ParseUnsigned(RemoveSymbols(Grouped(units)) + ("." + Pad2(cents)))
            == Some(units as real + cents as real / 100.0)
  {
    GroupedDigits(units);
    var d, f := RemoveSymbols(Grouped(units)), Pad2(cents);
    var x := d + ("." + f);
    FirstPointAfterDigits(d, f);
    var whole, fraction := x[..|d|], x[|d| + 1..];
    assert whole == d;
    assert fraction == f;
    assert Pow10(|fraction|) == 100;
    TwoDigitFraction(units, cents, DigitsValue(whole), DigitsValue(fraction), Pow10(|fraction|));
  }

  /** The parser's whole-plus-fraction value, for a two-digit fraction. */
  lemma TwoDigitFraction(units: nat, cents: nat, u: nat, c: nat, p: nat)
    requires u == units && c == cents && p == 100
    ensures u as real + c as real / p as real == units as real + cents as real / 100.0
  {
  }


  /** One group of a grouped number: the separator goes, the three digits stay. */
  lemma GroupedStep(n: nat)
    requires n >= 1000
    ensures RemoveSymbols(Grouped(n)) == RemoveSymbols(Grouped(n / 1000)) + Pad3(n % 1000)
  {
    var g, p := Grouped(n / 1000), Pad3(n % 1000);
    RemoveSymbolsAppend(g + ",", p);
    RemoveSymbolsAppend(g, ",");
    RemoveSymbolsKeepsClean(p);
    assert RemoveSymbols(",") == [];
    assert RemoveSymbols(g) + [] == RemoveSymbols(g);
  }

  /** Removing the separators from a grouped number leaves its plain digits. */
  lemma {:induction false} GroupedDigits(n: nat)
    ensures |RemoveSymbols(Grouped(n))| >= 1 && AllDigits(RemoveSymbols(Grouped(n)))
    ensures DigitsValue(RemoveSymbols(Grouped(n))) == n
    decreases n
  {
    if n < 1000 {
      RemoveSymbolsKeepsClean(ShowNat(n));
    } else {
      var front, back := RemoveSymbols(Grouped(n / 1000)), Pad3(n % 1000);
      GroupedDigits(n / 1000);
      GroupedStep(n);
      DigitsValueAppend(front, back);
      assert Pow10(|back|) == 1000;
      assert DigitsValue(front + back) == n / 1000 * 1000 + n % 1000;
    }
  }

  /** What the parser sees of a formatted amount: its sign, its plain digits, a point and the cents. */
  lemma FormattedWithoutSymbols(cents: int)
    ensures var c: nat := if cents < 0 then -cents else cents;
            RemoveSymbols(FormatMoney(cents))
            == (if cents < 0 then "-" else "") + (RemoveSymbols(Grouped(c / 100)) + ("." + Pad2(c % 100)))
  {
    var c: nat := if cents < 0 then -cents else cents;
    var sign := if cents < 0 then "-" else "";
    var g := Grouped(c / 100);
    var tail := "." + Pad2(c % 100);
    assert FormatMoney(cents) == "$" + (sign + (g + tail));
    assert RemoveSymbols("$") == [];
    RemoveSymbolsAppend("$", sign + (g + tail));
    RemoveSymbolsAppend(sign, g + tail);
    RemoveSymbolsAppend(g, tail);
    RemoveSymbolsKeepsClean(sign);
    CentsTailClean(c % 100);
  }

  /** The point and the two digits of cents carry no symbol to remove. */
  lemma CentsTailClean(m: nat)
    requires m < 100
    ensures RemoveSymbols("." + Pad2(m)) == "." + Pad2(m)
  {
    var t := "." + Pad2(m);
    forall i | 0 <= i < |t| ensures t[i] != '$' && t[i] != ',' {
      if i > 0 {
        assert t[i] == Pad2(m)[i - 1];
      }
    }
    RemoveSymbolsKeepsClean(t);
  }


  /**
   * Round trip: the normalisation reads back exactly the amount that the
   * dashboards display as `f"${x:,.2f}"`, negative amounts included.
   */
  lemma CleanAmountReadsFormatted(cents: int)
    ensures CleanAmount(FormatMoney(cents)) == cents as real / 100.0
  {
    var c: nat := if cents < 0 then -cents else cents;
    var d := RemoveSymbols(Grouped(c / 100));
    var u := d + ("." + Pad2(c % 100));
    var t := RemoveSymbols(FormatMoney(cents));
    var v := c as real / 100.0;
    FormattedWithoutSymbols(cents);
    assert ParseUnsigned(u) == Some(v) by {
      ParseUnitsAndCents(c / 100, c % 100);
      SplitCents(c);
    }
    if cents < 0 {
      assert t == "-" + u;
      ParseNegative(u);
      assert -v == cents as real / 100.0;
    } else {
      assert t == u by {
        assert "" + u == u;
      }
      GroupedDigits(c / 100);
      assert u[0] == d[0];
      ParseUnsignedFirstDigit(u);
    }
  }

  /** Units plus hundredths make up the amount of cents. */
  lemma SplitCents(c: nat)
    ensures (c / 100) as real + (c % 100) as real / 100.0 == c as real / 100.0
  {
    assert c == c / 100 * 100 + c % 100;
  }

  /** A leading minus sign negates the number that follows. */
  lemma ParseNegative(u: string)
    requires ParseUnsigned(u).Some?
    ensures ParseNumber("-" + u) == Some(-ParseUnsigned(u).value)
  {
    assert ("-" + u)[1..] == u;
  }

  /** Text that starts with a digit is read without a sign. */
  lemma ParseUnsignedFirstDigit(u: string)
    requires |u| > 0 && IsDigit(u[0])
    ensures ParseNumber(u) == ParseUnsigned(u)
  {
  }

  /** `$` and `,` anywhere in a cell make no difference to the amount read. */
  lemma CleanAmountIgnoresSymbols(a: string, b: string)
    ensures CleanAmount(a + "$" + b) == CleanAmount(a + b)
    ensures CleanAmount(a + "," + b) == CleanAmount(a + b)
  {
    RemoveSymbolsAppend(a + "$", b);
    RemoveSymbolsAppend(a, "$");
    RemoveSymbolsAppend(a + ",", b);
    RemoveSymbolsAppend(a, ",");
    RemoveSymbolsAppend(a, b);
    assert RemoveSymbols("$") == [] && RemoveSymbols(",") == [];
    assert RemoveSymbols(a) + [] == RemoveSymbols(a);
  }

  /** A cell without a minus sign never yields a negative amount. */
  lemma CleanAmountNonNegative(s: string)
    requires forall i :: 0 <= i < |s| ==> s[i] != '-'
    ensures CleanAmount(s) >= 0.0
  {
    var t := RemoveSymbols(s);
    if |t| > 0 && t[0] == '-' {
      RemoveSymbolsNoNewChars(s, 0);
    }
  }

  /** Every character left by the removal was already in the string. */
  lemma {:induction false} RemoveSymbolsNoNewChars(s: string, i: int)
    requires 0 <= i < |RemoveSymbols(s)|
    ensures RemoveSymbols(s)[i] in s
    decreases |s|
  {
    if s[0] == '$' || s[0] == ',' {
      RemoveSymbolsNoNewChars(s[1..], i);
    } else if i > 0 {
      RemoveSymbolsNoNewChars(s[1..], i - 1);
    }
  }

  /** The ingestion step's worked example: `"$1,234.56"` is read as 1234.56. */
  lemma CleanAmountFormattedExample()
    ensures CleanAmount("$1,234.56") == 1234.56
  {
    assert Grouped(1234) == "1,234" by {
      assert ShowNat(1) == "1";
      assert Pad3(234) == "234";
    }
    assert Pad2(56) == "56";
    assert FormatMoney(123456) == "$1,234.56";
    CleanAmountReadsFormatted(123456);
  }

  /** Text without a single digit is never a number: it is read as 0. */
  lemma NoDigitsIsZero(s: string)
    requires forall i :: 0 <= i < |s| ==> !IsDigit(s[i])
    ensures CleanAmount(s) == 0.0
  {
    var t := RemoveSymbols(s);
    forall i | 0 <= i < |t| ensures !IsDigit(t[i]) {
      RemoveSymbolsNoNewChars(s, i);
    }
    if |t| > 0 && (t[0] == '-' || t[0] == '+') {
      ParseUnsignedNeedsDigit(t[1..]);
    } else {
      ParseUnsignedNeedsDigit(t);
    }
  }

  /** The number grammar needs at least one digit. */
  lemma ParseUnsignedNeedsDigit(t: string)
    requires forall i :: 0 <= i < |t| ==> !IsDigit(t[i])
    ensures ParseUnsigned(t).None?
  {
    match FindFrom(t, ".", 0)
    case None =>
      if |t| > 0 {
        assert !IsDigit(t[0]);
      }
    case Some(k) =>
      var whole, fraction := t[..k], t[k + 1..];
      if |whole| > 0 {
        assert whole[0] == t[0];
      } else if |fraction| > 0 {
        assert fraction[0] == t[k + 1];
      }
  }

  /** Text that is not a number, and a missing cell (which pandas renders as `nan`), are read as 0. */
  lemma CleanAmountJunkIsZero()
    ensures CleanAmount("bad") == 0.0
    ensures CleanAmount("nan") == 0.0
    ensures CleanAmount("") == 0.0
  {
    WordIsZero('b', 'a', 'd');
    WordIsZero('n', 'a', 'n');
    NoDigitsIsZero("");
  }

  /** A three-character word without a digit is read as 0. */
  lemma WordIsZero(a: char, b: char, c: char)
    requires !IsDigit(a) && !IsDigit(b) && !IsDigit(c)
    ensures CleanAmount([a, b, c]) == 0.0
  {
    var w := [a, b, c];
    forall i | 0 <= i < |w| ensures !IsDigit(w[i]) {
      assert w[i] == a || w[i] == b || w[i] == c;
    }
    NoDigitsIsZero(w);
  }

}
