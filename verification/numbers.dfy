/**
 * The numeric normalisers of the report parser (`parse_int`, `parse_float` in
 * scripts/parse.py). Both are total: whatever Python's `int()` / `float()` would reject
 * becomes 0 / 0.0.
 */
module Numbers {
  import opened Wrappers
  import opened Text

  /**
   * A run of ASCII digits in which single underscores may separate two digits, the
   * digit groups Python's `int()` and `float()` accept (`1_000`).
   */
  predicate IsDigitPart(w: string) {
    && |w| > 0
    && IsDigit(w[0])
    && IsDigit(w[|w| - 1])
    && (forall k :: 0 <= k < |w| ==> IsDigit(w[k]) || w[k] == '_')
    && !Contains(w, "__")
  }

  /** Deleting `c` from digits interspersed with `c` leaves digits only, and keeps every digit. */
  lemma {:induction false} RemoveSeparator(w: string, c: char)
    requires !IsDigit(c)
    requires forall k :: 0 <= k < |w| ==> IsDigit(w[k]) || w[k] == c
    ensures AllDigits(Remove(w, c))
    ensures (exists k :: 0 <= k < |w| && IsDigit(w[k])) ==> |Remove(w, c)| > 0
  {
    if |w| > 0 {
      RemoveSeparator(w[1..], c);
      if exists k :: 0 <= k < |w| && IsDigit(w[k]) {
        var k :| 0 <= k < |w| && IsDigit(w[k]);
        if k > 0 {
          assert IsDigit(w[1..][k - 1]);
        }
      }
    }
  }

  /** Deleting the underscores of a digit part leaves a non-empty digit string. */
  lemma DigitPartDigits(w: string)
    requires IsDigitPart(w)
    ensures |Remove(w, '_')| > 0 && AllDigits(Remove(w, '_'))
  {
    RemoveSeparator(w, '_');
  }

  /** The number a digit part spells. */
  function PartValue(w: string): nat
    requires IsDigitPart(w)
  {
    DigitPartDigits(w);
    DigitsValue(Remove(w, '_'))
  }

  /** A non-empty string of plain digits is a digit part spelling its own value. */
  lemma DigitsArePart(w: string)
    requires |w| > 0 && AllDigits(w)
    ensures IsDigitPart(w) && PartValue(w) == DigitsValue(w)
  {
    assert forall k :: 0 <= k < |w| ==> w[k] != '_';
    forall k | 0 <= k <= |w| ensures !StartsAt(w, k, "__") {
      if k + 2 <= |w| {
        assert w[k..k + 2][0] == w[k];
      }
    }
    RemoveAbsent(w, '_');
  }

  /**
   * Python's `int(t)` in base 10: surrounding whitespace, an optional sign, then a digit
   * part. `None` stands for the ValueError `int()` raises on anything else.
   */
  function IntLiteral(t: string): Option<int> {
    var u := Strip(Python, t);
    if |u| > 0 && (u[0] == '+' || u[0] == '-') then
      if IsDigitPart(u[1..]) then
        var magnitude: int := PartValue(u[1..]);
        Some(if u[0] == '-' then -magnitude else magnitude)
      else None
    else if IsDigitPart(u) then Some(PartValue(u))
    else None
  }

  /** `parse_int`: delete every comma, then `int()`; 0 when `int()` would raise. */
  function ParseInt(value: string): (r: int)
    ensures NoDigit(value) ==> r == 0
  {
    NoDigitUnreadable(value);
    IntLiteral(Remove(value, ',')).GetOr(0)
  }

  /** Text without a digit stays without one once cleaned, and neither `int()` nor `float()` reads it. */
  lemma NoDigitUnreadable(value: string)
    ensures NoDigit(value) ==> IntLiteral(Remove(value, ',')).None?
    ensures NoDigit(value) ==> FloatLiteral(Remove(Remove(value, '%'), ',')).None?
  {
    if NoDigit(value) {
      CleanedHasNoDigit(value, ',');
      NoDigitNoInt(Remove(value, ','));
      CleanedHasNoDigit(value, '%');
      CleanedHasNoDigit(Remove(value, '%'), ',');
      NoDigitNoFloat(Remove(Remove(value, '%'), ','));
    }
  }

  /** No character of `w` is a decimal digit. */
  predicate NoDigit(w: string) {
    forall k :: 0 <= k < |w| ==> !IsDigit(w[k])
  }

  /** Deleting a character and stripping whitespace bring in no digit. */
  lemma CleanedHasNoDigit(w: string, c: char)
    requires NoDigit(w)
    ensures NoDigit(Remove(w, c)) && NoDigit(Strip(Python, Remove(w, c)))
  {
    var v := Remove(w, c);
    forall k | 0 <= k < |v|
      ensures !IsDigit(v[k])
    {
      assert v[k] in v;
    }
    StrippedHasNoDigit(v);
  }

  /** Stripping whitespace brings in no digit. */
  lemma StrippedHasNoDigit(v: string)
    requires NoDigit(v)
    ensures NoDigit(Strip(Python, v))
  {
    StripRemovesOnlySpace(Python, v);
    var u := Strip(Python, v);
    forall k | 0 <= k < |u|
      ensures !IsDigit(u[k])
    {
      var x := u[k];
      assert x in multiset(u);
      assert IsDigit(x) ==> x !in v && !IsSpace(Python, x);
      assert IsDigit(x) ==> multiset(v)[x] == 0;
    }
  }

  /** A digit part holds a digit, so no slice of text without digits is one. */
  lemma NoDigitNoPart(u: string, i: nat, j: nat)
    requires NoDigit(u) && i <= j <= |u|
    ensures !IsDigitPart(u[i..j])
  {
    if i < j {
      assert u[i..j][0] == u[i];
    }
  }

  /** `int()` rejects text without digits. */
  lemma NoDigitNoInt(t: string)
    requires NoDigit(t)
    ensures IntLiteral(t).None?
  {
    StrippedHasNoDigit(t);
    var u := Strip(Python, t);
    NoDigitNoPart(u, 0, |u|);
    assert u[0..|u|] == u;
    if |u| > 0 {
      NoDigitNoPart(u, 1, |u|);
      assert u[1..|u|] == u[1..];
    }
  }

  /** `float()` rejects text without digits. */
  lemma NoDigitNoFloat(t: string)
    requires NoDigit(t)
    ensures FloatLiteral(t).None?
  {
    StrippedHasNoDigit(t);
    var u := Strip(Python, t);
    NoDigitNoDecimal(u, 0);
    assert u[0..] == u;
    if |u| > 0 {
      NoDigitNoDecimal(u, 1);
    }
  }

  /** An unsigned decimal holds a digit, so no suffix of text without digits is one. */
  lemma NoDigitNoDecimal(u: string, i: nat)
    requires NoDigit(u) && i <= |u|
    ensures UnsignedDecimal(u[i..]).None?
  {
    var w := u[i..];
    assert forall k :: 0 <= k < |w| ==> w[k] == u[i + k];
    NoDigitNoPart(u, i, |u|);
    assert u[i..|u|] == w;
    match Find(w, ".", 0)
    case None =>
    case Some(p) =>
      NoDigitNoPart(u, i, i + p);
      NoDigitNoPart(u, i + p + 1, |u|);
      assert w[..p] == u[i..i + p];
      assert w[p + 1..] == u[i + p + 1..|u|];
  }

  /** Ten to the power `n`. */
  function Pow10(n: nat): (r: nat)
    ensures r >= 1
  {
    if n == 0 then 1 else 10 * Pow10(n - 1)
  }

  /** The value of a digit part after the decimal point (`frac` may be empty). */
  function FractionValue(frac: string): real
    requires frac == [] || IsDigitPart(frac)
  {
    if frac == [] then 0.0
    else
      DigitPartDigits(frac);
      PartValue(frac) as real / Pow10(|Remove(frac, '_')|) as real
  }

  /**
   * An unsigned decimal as Python's `float()` reads it: digits, digits with a point,
   * or a point followed by digits. Exponents, `inf` and `nan` are not part of this model.
   */
  function UnsignedDecimal(u: string): Option<real> {
    match Find(u, ".", 0)
    case None => if IsDigitPart(u) then Some(PartValue(u) as real) else None
    case Some(p) => PointedDecimal(u[..p], u[p + 1..])
  }

  /** The value of `<whole>.<frac>`, where either side may be empty but not both. */
  function PointedDecimal(whole: string, frac: string): Option<real> {
    if (whole == [] || IsDigitPart(whole)) && (frac == [] || IsDigitPart(frac)) && (whole != [] || frac != [])
    then Some((if whole == [] then 0 else PartValue(whole)) as real + FractionValue(frac))
    else None
  }

  /** Python's `float(t)` for decimal text, with surrounding whitespace and an optional sign. */
  function FloatLiteral(t: string): Option<real> {
    var u := Strip(Python, t);
    if |u| > 0 && (u[0] == '+' || u[0] == '-') then
      match UnsignedDecimal(u[1..])
      case None => None
      case Some(v) => Some(if u[0] == '-' then -v else v)
    else UnsignedDecimal(u)
  }

  /**
   * `parse_float`: delete every `%`, then every comma, then `float()`; 0.0 when `float()`
   * would raise. The value is the exact decimal, not its IEEE-754 rounding.
   */
  function ParseFloat(value: string): (r: real)
    ensures NoDigit(value) ==> r == 0.0
  {
    NoDigitUnreadable(value);
    FloatLiteral(Remove(Remove(value, '%'), ',')).GetOr(0.0)
  }

  /** The characters a count capture such as `\d[\d,]*` may contain. */
  predicate DigitsAndCommas(w: string) {
    forall k :: 0 <= k < |w| ==> IsDigit(w[k]) || w[k] == ','
  }

  /**
   * On digits and commas with at least one digit, `parse_int` is the decimal value of the
   * digits with the commas deleted (`"1,234"` gives 1234).
   */
  lemma ParseIntDigitsAndCommas(w: string)
    requires DigitsAndCommas(w)
    requires exists k :: 0 <= k < |w| && IsDigit(w[k])
    ensures AllDigits(Remove(w, ',')) && |Remove(w, ',')| > 0
    ensures ParseInt(w) == DigitsValue(Remove(w, ',')) >= 0
  {
    var r := Remove(w, ',');
    RemoveSeparator(w, ',');
    DigitNotSpace(Python, r[0]);
    DigitNotSpace(Python, r[|r| - 1]);
    StripKeeps(Python, r);
    DigitsArePart(r);
    assert IntLiteral(r) == Some(DigitsValue(r));
  }

  /** A rendered natural number is its own stripped, comma-free integer literal. */
  lemma NatToStringIsLiteral(n: nat)
    ensures Remove(NatToString(n), ',') == NatToString(n)
    ensures Strip(Python, NatToString(n)) == NatToString(n)
    ensures IsDigitPart(NatToString(n)) && PartValue(NatToString(n)) == n
  {
    var w := NatToString(n);
    assert forall k :: 0 <= k < |w| ==> w[k] != ',';
    RemoveAbsent(w, ',');
    DigitNotSpace(Python, w[0]);
    DigitNotSpace(Python, w[|w| - 1]);
    StripKeeps(Python, w);
    NatToStringValue(n);
    DigitsArePart(w);
  }

  /** Reading back Python's rendering of an integer gives the integer. */
  lemma ParseIntRoundTrip(i: int)
    ensures ParseInt(IntToString(i)) == i
  {
    if i < 0 {
      assert IntToString(i) == "-" + NatToString(-i);
      NegativeRoundTrip(-i);
    } else {
      assert IntToString(i) == NatToString(i);
      NatRoundTrip(i);
    }
  }

  lemma NatRoundTrip(n: nat)
    ensures ParseInt(NatToString(n)) == n
  {
    var w := NatToString(n);
    NatToStringIsLiteral(n);
    assert IsDigit(w[0]);
    assert IntLiteral(w) == Some(n);
  }

  lemma NegativeRoundTrip(n: nat)
    requires n > 0
    ensures ParseInt("-" + NatToString(n)) == -(n as int)
  {
    var w := NatToString(n);
    var v := "-" + w;
    NatToStringIsLiteral(n);
    assert forall k :: 0 <= k < |v| ==> v[k] != ',' by {
      assert forall k :: 1 <= k < |v| ==> v[k] == w[k - 1];
    }
    RemoveAbsent(v, ',');
    DigitNotSpace(Python, w[|w| - 1]);
    assert v[|v| - 1] == w[|w| - 1];
    StripKeeps(Python, v);
    assert v[1..] == w;
  }

  /**
   * `parse_int` never fails: a character that no integer literal can hold (anything but a
   * digit, comma, underscore, sign or whitespace) makes the result 0.
   */
  lemma ParseIntRejectsGarbage(value: string, k: nat)
    requires k < |value|
    requires !IsDigit(value[k]) && !IsSpace(Python, value[k])
    requires value[k] !in {',', '_', '+', '-'}
    ensures ParseInt(value) == 0
  {
    var c := value[k];
    var r := Remove(value, ',');
    var u := Strip(Python, r);
    StripRemovesOnlySpace(Python, r);
    assert multiset(u)[c] == multiset(r)[c] == multiset(value)[c] > 0;
    var j :| 0 <= j < |u| && u[j] == c;
    assert !IsDigitPart(u) by {
      assert !(IsDigit(u[j]) || u[j] == '_');
    }
    if |u| > 0 && (u[0] == '+' || u[0] == '-') {
      assert !IsDigitPart(u[1..]) by {
        assert u[1..][j - 1] == c;
      }
    }
  }

  /** The text `float()` sees for a rate `<whole>.<frac>%`: the `%` goes, nothing else changes. */
  lemma RateTextCleaned(whole: string, frac: string)
    requires AllDigits(whole) && AllDigits(frac)
    ensures Remove(Remove(whole + "." + frac + "%", '%'), ',') == whole + "." + frac
  {
    var w := whole + "." + frac;
    forall j | 0 <= j < |w| ensures w[j] != '%' && w[j] != ',' {
      if j < |whole| { assert w[j] == whole[j]; }
      else if j > |whole| { assert w[j] == frac[j - |whole| - 1]; }
    }
    RemoveTrailing(w, '%');
    RemoveAbsent(w, ',');
  }

  /** The first point in `<whole>.<frac>` is the one after `whole` when `whole` has none. */
  lemma PointAfterWhole(whole: string, frac: string)
    requires AllDigits(whole)
    ensures Find(whole + "." + frac, ".", 0) == Some(|whole|)
  {
    var w := whole + "." + frac;
    assert StartsAt(w, |whole|, ".");
    forall j | 0 <= j < |whole| ensures !StartsAt(w, j, ".") {
      assert w[j] == whole[j];
    }
  }

  /** A point after a run of digits splits the text into the digits and what follows. */
  lemma PointSplits(whole: string, frac: string)
    requires AllDigits(whole)
    ensures UnsignedDecimal(whole + "." + frac) == PointedDecimal(whole, frac)
  {
    var w := whole + "." + frac;
    PointAfterWhole(whole, frac);
    assert w[..|whole|] == whole && w[|whole| + 1..] == frac;
  }

  /** `<whole>.<frac>` with digits on both sides is the decimal it spells. */
  lemma DecimalValue(whole: string, frac: string)
    requires |whole| > 0 && AllDigits(whole) && |frac| > 0 && AllDigits(frac)
    ensures UnsignedDecimal(whole + "." + frac)
            == Some(DigitsValue(whole) as real + DigitsValue(frac) as real / Pow10(|frac|) as real)
  {
    PointSplits(whole, frac);
    PointedValue(whole, frac);
  }

  lemma PointedValue(whole: string, frac: string)
    requires |whole| > 0 && AllDigits(whole) && |frac| > 0 && AllDigits(frac)
    ensures PointedDecimal(whole, frac)
            == Some(DigitsValue(whole) as real + DigitsValue(frac) as real / Pow10(|frac|) as real)
  {
    DigitsArePart(whole);
    FractionOfDigits(frac);
  }


  /** Digits after the point weigh their value over ten to their count. */
  lemma FractionOfDigits(frac: string)
    requires |frac| > 0 && AllDigits(frac)
    ensures IsDigitPart(frac)
    ensures FractionValue(frac) == DigitsValue(frac) as real / Pow10(|frac|) as real
  {
    DigitsArePart(frac);
    assert forall j :: 0 <= j < |frac| ==> frac[j] != '_';
    RemoveAbsent(frac, '_');
  }

  /** A rate captured as `<digits>.<digits>%` reads as that exact decimal. */
  lemma ParseFloatDecimal(whole: string, frac: string)
    requires |whole| > 0 && AllDigits(whole) && |frac| > 0 && AllDigits(frac)
    ensures ParseFloat(whole + "." + frac + "%")
            == DigitsValue(whole) as real + DigitsValue(frac) as real / Pow10(|frac|) as real
  {
    var w := whole + "." + frac;
    RateTextCleaned(whole, frac);
    assert w[0] == whole[0] && w[|w| - 1] == frac[|frac| - 1];
    DigitNotSpace(Python, w[0]);
    DigitNotSpace(Python, w[|w| - 1]);
    StripKeeps(Python, w);
    assert !(w[0] == '+' || w[0] == '-');
    assert FloatLiteral(w) == UnsignedDecimal(w);
    DecimalValue(whole, frac);
  }

  /** Deleting a character from a string that ends with it drops that last character. */
  lemma {:induction false} RemoveTrailing(w: string, c: char)
    requires c !in w
    ensures Remove(w + [c], c) == w
  {
    if |w| == 0 {
    } else {
      assert (w + [c])[1..] == w[1..] + [c];
      RemoveTrailing(w[1..], c);
    }
  }

  /** Two decimal points make the rate unreadable, so `parse_float` gives 0.0 (`"1.2.3%"`). */
  lemma ParseFloatTwoPoints(value: string, i: nat, j: nat)
    requires i < j < |value| && value[i] == '.' && value[j] == '.'
    ensures ParseFloat(value) == 0.0
  {
    var r := Remove(Remove(value, '%'), ',');
    assert multiset(value)['.'] >= 2 by {
      assert value == value[..j] + [value[j]] + value[j + 1..];
      assert value[i] in value[..j];
    }
    PointsKept(value);
    SignedTwoPoints(Strip(Python, r));
    assert FloatLiteral(r).None?;
  }

  /** Cleaning and stripping keep every decimal point. */
  lemma PointsKept(value: string)
    ensures multiset(Strip(Python, Remove(Remove(value, '%'), ',')))['.'] == multiset(value)['.']
  {
    var r := Remove(Remove(value, '%'), ',');
    StripRemovesOnlySpace(Python, r);
    assert !IsSpace(Python, '.');
  }

  /** With two points, neither the text nor the text after a leading sign is an unsigned decimal. */
  lemma SignedTwoPoints(u: string)
    requires multiset(u)['.'] >= 2
    ensures UnsignedDecimal(u).None?
    ensures |u| > 0 && (u[0] == '+' || u[0] == '-') ==> UnsignedDecimal(u[1..]).None?
  {
    TwoPointsUnreadable(u);
    if |u| > 0 && (u[0] == '+' || u[0] == '-') {
      assert u == [u[0]] + u[1..];
      assert multiset(u[1..])['.'] == multiset(u)['.'];
      TwoPointsUnreadable(u[1..]);
    }
  }

  /** Text with a point splits at its first point. */
  lemma PointTail(t: string, p: nat)
    requires Find(t, ".", 0) == Some(p)
    ensures UnsignedDecimal(t) == PointedDecimal(t[..p], t[p + 1..])
  {
  }

  /** A string holding two decimal points is not an unsigned decimal. */
  lemma TwoPointsUnreadable(t: string)
    requires multiset(t)['.'] >= 2
    ensures UnsignedDecimal(t).None?
  {
    assert '.' in t;
    var q :| 0 <= q < |t| && t[q] == '.';
    assert StartsAt(t, q, ".") by { assert t[q..q + 1] == [t[q]]; }
    var p := Find(t, ".", 0).value;
    PointInRest(t, p);
    var rest := t[p + 1..];
    assert '.' in rest;
    var k :| 0 <= k < |rest| && rest[k] == '.';
    assert !IsDigitPart(rest) by {
      assert !(IsDigit(rest[k]) || rest[k] == '_');
    }
    PointTail(t, p);
  }

  /** After the first of at least two points, another point remains. */
  lemma PointInRest(t: string, p: nat)
    requires Find(t, ".", 0) == Some(p) && multiset(t)['.'] >= 2
    ensures multiset(t[p + 1..])['.'] > 0
  {
    forall k | 0 <= k < p ensures t[k] != '.' {
      assert !StartsAt(t, k, ".");
      assert t[k..k + 1] == [t[k]];
    }
    assert '.' !in t[..p];
    assert t == t[..p] + [t[p]] + t[p + 1..];
  }
}
