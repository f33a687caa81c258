/** Printing and parsing undo each other. */
module FixedPointProofs {
  import opened Arithmetic
  import opened Basics
  import opened FixedPoint

  lemma SignRead(neg: bool, body: string)
    requires body != "" && IsDigit(body[0])
    ensures Signed((if neg then "-" else "") + body) == (if neg then -1 else 1, body)
  {
    var s := (if neg then "-" else "") + body;
    if neg { assert s[1..] == body; } else { assert s == body; }
  }

  lemma FractionRead(frac: string, dot: bool)
    requires AllDigits(frac) && (!dot ==> frac == "")
    ensures Fraction(if dot then "." + frac else "") == frac
  {
    if dot {
      assert ("." + frac)[1..] == frac && frac[..|frac|] == frac;
      LeadingDigitsUnique(frac, |frac|);
    }
  }

  lemma PartsRead(whole: string, frac: string, dot: bool)
    requires AllDigits(whole) && whole != "" && AllDigits(frac) && (!dot ==> frac == "")
    ensures var body := whole + (if dot then "." + frac else "");
      LeadingDigits(body) == |whole| && body[..|whole|] == whole && Fraction(body[|whole|..]) == frac
  {
    var rest := if dot then "." + frac else "";
    var body := whole + rest;
    assert body[..|whole|] == whole && body[|whole|..] == rest;
    LeadingDigitsUnique(body, |whole|);
    FractionRead(frac, dot);
  }

  lemma BodyRead(whole: string, frac: string, dot: bool, d: nat)
    requires AllDigits(whole) && whole != "" && AllDigits(frac) && (!dot ==> frac == "")
    ensures ParsedBody(whole + (if dot then "." + frac else ""), d) == Some(Units(Num(whole), frac, d))
  {
    PartsRead(whole, frac, dot);
  }

  lemma NumeralSplit(neg: bool, whole: string, frac: string, dot: bool)
    ensures Numeral(neg, whole, frac, dot) == (if neg then "-" else "") + (whole + (if dot then "." + frac else ""))
  {
  }

  lemma SignedBody(neg: bool, body: string, d: nat, m: nat)
    requires body != "" && IsDigit(body[0]) && ParsedBody(body, d) == Some(m)
    ensures Parsed((if neg then "-" else "") + body, d) == Some(WithSign(if neg then -1 else 1, m))
  {
    SignRead(neg, body);
  }

  /** What the parser makes of any numeral: extra fraction digits are cut, missing ones are zeros. */
  lemma ParseNumeral(neg: bool, whole: string, frac: string, dot: bool, d: nat)
    requires AllDigits(whole) && whole != "" && AllDigits(frac) && (!dot ==> frac == "")
    ensures Parsed(Numeral(neg, whole, frac, dot), d)
         == Some(WithSign(if neg then -1 else 1, Units(Num(whole), frac, d)))
  {
    var body := whole + (if dot then "." + frac else "");
    BodyRead(whole, frac, dot, d);
    NumeralSplit(neg, whole, frac, dot);
    assert body[0] == whole[0];
    SignedBody(neg, body, d, Units(Num(whole), frac, d));
  }

  lemma {:induction false} IntTextValue(n: nat)
    ensures Num(IntText(n)) == n
  {
    if n > 0 {
      IntTextValue(n / 10);
      NumPush(IntText(n / 10), DigitChar(n % 10));
    }
  }

  lemma WholeTextValue(n: nat)
    ensures Num(WholeText(n)) == n
  {
    IntTextValue(n);
    NumPush("", '0');
    assert "" + ['0'] == "0";
  }

  lemma TenthBelow(n: nat, d: nat)
    requires d > 0 && n < Pow10(d)
    ensures n / 10 < Pow10(d - 1)
  {
  }

  lemma {:induction false} FracTextValue(n: nat, d: nat)
    requires n < Pow10(d)
    ensures Num(FracText(n, d)) == n
  {
    if d > 0 {
      TenthBelow(n, d);
      FracTextValue(n / 10, d - 1);
      NumPush(FracText(n / 10, d - 1), DigitChar(n % 10));
    }
  }

  lemma ScaledExact(frac: string, d: nat)
    requires AllDigits(frac) && |frac| == d
    ensures Scaled(frac, d) == Num(frac)
  {
    assert frac[..d] == frac;
  }

  /** The printed parts denote the value's magnitude. */
  lemma PartsValue(value: int, decimals: nat)
    ensures Units(Num(WholeText(WholePart(value, decimals))), FracText(FracPart(value, decimals), decimals), decimals)
         == Abs(value)
  {
    var frac := FracText(FracPart(value, decimals), decimals);
    Recombine(value, decimals);
    FracTextValue(FracPart(value, decimals), decimals);
    WholeTextValue(WholePart(value, decimals));
    ScaledExact(frac, decimals);
  }

  /** For every value and number of places, parsing what was printed gives the value back. */
  lemma PrintThenParse(value: int, decimals: nat)
    ensures Parsed(Text(value, decimals), decimals) == Some(value)
  {
    var whole, frac := WholeText(WholePart(value, decimals)), FracText(FracPart(value, decimals), decimals);
    ParseNumeral(value < 0, whole, frac, decimals > 0, decimals);
    assert Units(Num(whole), frac, decimals) == Abs(value) by { PartsValue(value, decimals); }
    assert WithSign(if value < 0 then -1 else 1, Abs(value)) == value;
  }

  lemma WholeBound(whole: nat, scale: nat, rest: nat, magnitude: nat)
    requires scale > 0 && whole * scale + rest == magnitude
    ensures whole <= magnitude && rest <= magnitude
  {
    MulLe(1, scale, whole);
  }

  /** Parsing a printed `int` of up to nine places never leaves the range of C's `int`, at any step. */
  lemma PrintedStaysInRange(value: int, decimals: nat)
    requires -INT_MAX <= value <= INT_MAX && decimals <= 9
    ensures InRange(Text(value, decimals), decimals) && Parsed(Text(value, decimals), decimals) == Some(value)
  {
    var whole, frac := WholeText(WholePart(value, decimals)), FracText(FracPart(value, decimals), decimals);
    var body := whole + (if decimals > 0 then "." + frac else "");
    NumeralSplit(value < 0, whole, frac, decimals > 0);
    assert body[0] == whole[0];
    SignRead(value < 0, body);
    PartsRead(whole, frac, decimals > 0);
    PartsValue(value, decimals);
    WholeBound(Num(whole), Pow10(decimals), Scaled(frac, decimals), Abs(value));
    ScaleIsInt(decimals);
    PrintThenParse(value, decimals);
  }

  lemma SpacesDoNotParse(n: nat, text: string, d: nat)
    requires n > 0
    ensures Parsed(Spaces(n) + text, d) == None
  {
    var s := Spaces(n) + text;
    assert s[0] == ' ';
    assert Signed(s) == (1, s) && LeadingDigits(s) == 0;
  }

  /** With a buffer that is large enough the round trip succeeds exactly when nothing was padded. */
  lemma FormattedThenParsed(value: int, decimals: nat, width: int, max: nat)
    requires max > |Padded(Text(value, decimals), width)|
    ensures var full := Padded(Text(value, decimals), width);
            var out := Min(|full|, max - 1);
            Parsed(full[..out], decimals) == if width <= |Text(value, decimals)| then Some(value) else None
  {
    var text := Text(value, decimals);
    var full := Padded(text, width);
    assert full[..|full|] == full;
    if width <= |text| {
      assert full == text;
      PrintThenParse(value, decimals);
    } else {
      SpacesDoNotParse(width - |text|, text, decimals);
    }
  }

  /** Printing is injective: two values never share a text. */
  lemma PrintIsInjective(a: int, b: int, decimals: nat)
    requires Text(a, decimals) == Text(b, decimals)
    ensures a == b
  {
    PrintThenParse(a, decimals);
    PrintThenParse(b, decimals);
  }

  // ---- The other direction ----

  lemma {:induction false} NumBound(s: string)
    requires AllDigits(s)
    ensures Num(s) < Pow10(|s|)
  {
    if s != "" { NumBound(s[..|s| - 1]); }
  }

  lemma LastDigit(s: string)
    requires AllDigits(s) && s != ""
    ensures var head := s[..|s| - 1];
      && s == head + [s[|s| - 1]] && AllDigits(head)
      && Num(s) / 10 == Num(head) && DigitChar(Num(s) % 10) == s[|s| - 1]
  {
  }

  lemma {:induction false} FracTextOfNum(s: string)
    requires AllDigits(s)
    ensures FracText(Num(s), |s|) == s
  {
    if s != "" {
      FracTextOfNum(s[..|s| - 1]);
      LastDigit(s);
    }
  }

  lemma {:induction false} NumPositive(s: string)
    requires AllDigits(s) && s != "" && s[0] != '0'
    ensures Num(s) > 0
  {
    if |s| > 1 {
      NumPositive(s[..|s| - 1]);
    } else {
      assert s[..0] == "";
    }
  }

  lemma {:induction false} IntTextOfNum(s: string)
    requires AllDigits(s) && (s != "" ==> s[0] != '0')
    ensures IntText(Num(s)) == s
  {
    if s != "" {
      var head := s[..|s| - 1];
      IntTextOfNum(head);
      NumPositive(s);
      assert Num(s) / 10 == Num(head) && DigitChar(Num(s) % 10) == s[|s| - 1];
      assert s == head + [s[|s| - 1]];
    }
  }

  /** A numeral as the printer writes it: no superfluous zeros, `d` places, no negative zero. */
  ghost predicate Canonical(neg: bool, whole: string, frac: string, d: nat) {
    && AllDigits(whole) && whole != "" && (whole[0] == '0' ==> whole == "0")
    && AllDigits(frac) && |frac| == d
    && (neg ==> Num(whole) * Pow10(d) + Num(frac) != 0)
  }

  lemma PartsOf(v: int, whole: nat, frac: nat, d: nat)
    requires frac < Pow10(d) && Abs(v) == whole * Pow10(d) + frac
    ensures WholePart(v, d) == whole && FracPart(v, d) == frac
  {
    DivModUnique(Abs(v), Pow10(d), whole, frac);
  }

  lemma WholeTextOfNum(whole: string)
    requires AllDigits(whole) && whole != "" && (whole[0] == '0' ==> whole == "0")
    ensures WholeText(Num(whole)) == whole
  {
    if whole[0] == '0' {
      assert "0"[..0] == "";
    } else {
      NumPositive(whole);
      IntTextOfNum(whole);
    }
  }

  /** Printing what was parsed from a canonical numeral gives the numeral back. */
  lemma ParseThenPrint(neg: bool, whole: string, frac: string, d: nat)
    requires Canonical(neg, whole, frac, d)
    ensures var s := Numeral(neg, whole, frac, d > 0);
      Parsed(s, d).Some? && Text(Parsed(s, d).value, d) == s
  {
    ParseNumeral(neg, whole, frac, d > 0, d);
    assert frac[..d] == frac;
    NumBound(frac);
    var v := Parsed(Numeral(neg, whole, frac, d > 0), d).value;
    PartsOf(v, Num(whole), Num(frac), d);
    FracTextOfNum(frac);
    WholeTextOfNum(whole);
  }

  /** So the canonical numerals are exactly the printer's texts. */
  lemma PrintIsCanonical(value: int, decimals: nat)
    ensures Canonical(value < 0, WholeText(WholePart(value, decimals)), FracText(FracPart(value, decimals), decimals),
                      decimals)
  {
    PartsValue(value, decimals);
    ScaledExact(FracText(FracPart(value, decimals), decimals), decimals);
  }

  // ---- What the parser makes of any string ----

  lemma {:induction false} Pow10Add(a: nat, b: nat)
    ensures Pow10(a + b) == Pow10(a) * Pow10(b)
  {
    if b > 0 { Pow10Add(a, b - 1); }
  }

  lemma {:induction false} NumConcat(a: string, b: string)
    requires AllDigits(a) && AllDigits(b)
    ensures AllDigits(a + b) && Num(a + b) == Num(a) * Pow10(|b|) + Num(b)
  {
    if b == "" {
      assert a + b == a;
    } else {
      var head, last := b[..|b| - 1], b[|b| - 1];
      NumConcat(a, head);
      NumPush(a + head, last);
      NumPush(head, last);
      assert a + b == (a + head) + [last] && b == head + [last];
      Distribute(Num(a), Pow10(|head|), Num(head));
    }
  }

  lemma Distribute(a: nat, p: nat, b: nat)
    ensures 10 * (a * p + b) == a * (10 * p) + 10 * b
  {
  }

  /** A fraction of at most `d` digits: scaling up is exact. */
  lemma ShortFraction(whole: nat, frac: nat, p: nat, e: nat)
    requires p > 0
    ensures (whole * p + frac) * (p * e) / p == whole * (p * e) + frac * e
  {
    var q := whole * (p * e) + frac * e;
    assert (whole * p + frac) * (p * e) == q * p by {
      assert (whole * p + frac) * (p * e) == (whole * p) * (p * e) + frac * (p * e);
      assert q * p == (whole * (p * e)) * p + (frac * e) * p;
      assert (whole * p) * (p * e) == (whole * (p * e)) * p;
      assert frac * (p * e) == (frac * e) * p;
    }
    DivModUnique(q * p, p, q, 0);
  }

  lemma Regroup(whole: nat, p: nat, a: nat, e: nat)
    ensures whole * (p * e) + a * e == (whole * p + a) * e
  {
  }

  lemma Scale(q: nat, b: nat, p: nat, e: nat)
    requires p > 0 && b < e
    ensures p * e > 0
    ensures (q * e + b) * p / (p * e) == q
  {
    MulLe(1, p, e);
    MulLe(b + 1, e, p);
    assert (q * e + b) * p == q * (p * e) + b * p;
    assert (b + 1) * p == b * p + p;
    DivModUnique((q * e + b) * p, p * e, q, b * p);
  }

  /** A longer fraction `a * e + b`, the last digits `b` below `e`: they are cut. */
  lemma LongFraction(whole: nat, a: nat, b: nat, p: nat, e: nat)
    requires p > 0 && b < e
    ensures p * e > 0
    ensures (whole * (p * e) + (a * e + b)) * p / (p * e) == whole * p + a
  {
    Regroup(whole, p, a, e);
    Scale(whole * p + a, b, p, e);
  }

  /** The value read is the numeral in units of 10^-d, rounded down: extra digits are cut, missing ones are zeros. */
  lemma UnitsAreFloor(whole: string, frac: string, d: nat)
    requires AllDigits(whole) && AllDigits(frac)
    ensures AllDigits(whole + frac)
    ensures Units(Num(whole), frac, d) == Num(whole + frac) * Pow10(d) / Pow10(|frac|)
  {
    NumConcat(whole, frac);
    if |frac| <= d {
      Pow10Add(|frac|, d - |frac|);
      assert |frac| == d ==> frac[..d] == frac;
      ShortFraction(Num(whole), Num(frac), Pow10(|frac|), Pow10(d - |frac|));
    } else {
      var a, b := frac[..d], frac[d..];
      assert frac == a + b;
      NumConcat(a, b);
      NumBound(b);
      Pow10Add(d, |b|);
      LongFraction(Num(whole), Num(a), Num(b), Pow10(d), Pow10(|b|));
    }
  }

  /** What may follow a numeral: anything that does not continue it. */
  predicate Ends(tail: string, dot: bool) {
    tail == "" || (!IsDigit(tail[0]) && (dot || tail[0] != '.'))
  }

  lemma TailIgnored(whole: string, frac: string, dot: bool, tail: string)
    requires AllDigits(whole) && whole != "" && AllDigits(frac) && (!dot ==> frac == "") && Ends(tail, dot)
    ensures var body := whole + ((if dot then "." + frac else "") + tail);
      LeadingDigits(body) == |whole| && body[..|whole|] == whole && Fraction(body[|whole|..]) == frac
  {
    var rest := (if dot then "." + frac else "") + tail;
    var body := whole + rest;
    assert body[..|whole|] == whole && body[|whole|..] == rest;
    assert rest != "" ==> !IsDigit(rest[0]) by {
      if rest != "" { assert rest[0] == if dot then '.' else tail[0]; }
    }
    LeadingDigitsUnique(body, |whole|);
    if dot {
      assert rest[0] == '.' && rest[1..] == frac + tail;
      assert (frac + tail)[..|frac|] == frac;
      LeadingDigitsUnique(frac + tail, |frac|);
    }
  }

  lemma SignPrefix(sign: string, body: string)
    requires sign in {"", "-", "+"} && body != "" && IsDigit(body[0])
    ensures Signed(sign + body) == (if sign == "-" then -1 else 1, body)
  {
    var s := sign + body;
    if sign == "" { assert s == body; } else { assert s[0] == sign[0] && s[1..] == body; }
  }

  /**
   Every string that starts with an optional sign and a digit: the value is the digits before and after the point as one
   number, times 10^d over 10 to the number of digits after the point, rounded down, with the sign applied last.
   */
  lemma ParsedIsFloor(sign: string, whole: string, frac: string, dot: bool, tail: string, d: nat)
    requires sign in {"", "-", "+"} && AllDigits(whole) && whole != "" && AllDigits(frac)
    requires (!dot ==> frac == "") && Ends(tail, dot)
    ensures AllDigits(whole + frac)
    ensures var magnitude := Num(whole + frac) * Pow10(d) / Pow10(|frac|);
            Parsed(sign + (whole + ((if dot then "." + frac else "") + tail)), d) ==
            Some(if sign == "-" then -magnitude else magnitude)
  {
    var body := whole + ((if dot then "." + frac else "") + tail);
    assert body[0] == whole[0];
    SignPrefix(sign, body);
    TailIgnored(whole, frac, dot, tail);
    UnitsAreFloor(whole, frac, d);
  }

  /** All other strings are refused. */
  lemma RefusedIff(s: string, d: nat)
    ensures Parsed(s, d) == None <==>
              var body := if s != "" && (s[0] == '-' || s[0] == '+') then s[1..] else s;
              body == "" || !('0' <= body[0] <= '9')
  {
  }

  /** Right-aligned: as long as the width or the text, spaces in front, the text at the end. */
  lemma PaddedShape(text: string, width: int)
    ensures var full := Padded(text, width);
            && |full| == Max(width, |text|) && full[|full| - |text|..] == text
            && forall i :: 0 <= i < |full| - |text| ==> full[i] == ' '
  {
  }

  /** The second decimal is cut when one place is asked for, and towards zero also below zero. */
  lemma NegativeReads()
    ensures Parsed("-0.59", 1) == Some(-5)
  {
    assert "-0.59"[1..] == "0.59" && "0.59"[1..][1..] == "59";
    LeadingDigitsUnique("0.59", 1);
    LeadingDigitsUnique("59", 2);
    assert "59"[..2] == "59" && "59"[..1] == "5" && "0.59"[..1] == "0" && "0"[..0] == "" && "5"[..0] == "";
  }

  /** The example in the comment of `fmt_fixed`, and a value between zero and minus one. */
  lemma PrintedTexts()
    ensures Text(3198, 2) == "31.98" && Text(-50, 2) == "-0.50"
  {
    assert Pow10(2) == 100;
    assert WholePart(3198, 2) == 31 && FracPart(3198, 2) == 98;
  }
}
