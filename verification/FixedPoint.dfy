/** The sensor panel's fixed-point printer and parser (fmt_fixed, parse_fixed). */
module FixedPoint {
  import opened Arithmetic
  import opened Basics

  const SCRATCH_SIZE: nat := 32

  function Pow10(d: nat): (p: nat)
    ensures p > 0
  {
    if d == 0 then 1 else 10 * Pow10(d - 1)
  }

  predicate IsDigit(c: char) { '0' <= c <= '9' }

  predicate AllDigits(s: string) {
    forall i :: 0 <= i < |s| ==> IsDigit(s[i])
  }

  function DigitValue(c: char): nat
    requires IsDigit(c)
  {
    c as int - '0' as int
  }

  function DigitChar(v: nat): (c: char)
    requires v < 10
    ensures IsDigit(c) && DigitValue(c) == v
  {
    '0' + v as char
  }

  /** The number a string of digits denotes. */
  function Num(s: string): nat
    requires AllDigits(s)
  {
    if s == "" then 0 else 10 * Num(s[..|s| - 1]) + DigitValue(s[|s| - 1])
  }

  lemma NumPush(head: string, c: char)
    requires AllDigits(head) && IsDigit(c)
    ensures AllDigits(head + [c]) && Num(head + [c]) == 10 * Num(head) + DigitValue(c)
  {
    assert (head + [c])[..|head|] == head;
  }

  // ---- Printing ----

  /** Decimal digits without leading zeros; nothing for zero. */
  function IntText(n: nat): (s: string)
    ensures AllDigits(s) && (s == "" <==> n == 0)
    ensures s != "" ==> s[0] != '0'
  {
    if n == 0 then "" else IntText(n / 10) + [DigitChar(n % 10)]
  }

  /** Exactly `d` decimal digits. */
  function FracText(n: nat, d: nat): (s: string)
    ensures |s| == d && AllDigits(s)
  {
    if d == 0 then "" else FracText(n / 10, d - 1) + [DigitChar(n % 10)]
  }

  function WholeText(n: nat): (s: string)
    ensures AllDigits(s) && s != ""
  {
    if n == 0 then "0" else IntText(n)
  }

  /** A sign, a whole part and a fraction put together. */
  function Numeral(neg: bool, whole: string, frac: string, dot: bool): string {
    (if neg then "-" else "") + whole + (if dot then "." + frac else "")
  }

  function WholePart(value: int, decimals: nat): (n: nat)
    ensures n <= Abs(value)
  {
    QuotientSmaller(Abs(value), Pow10(decimals));
    Abs(value) / Pow10(decimals)
  }

  function FracPart(value: int, decimals: nat): nat {
    Abs(value) % Pow10(decimals)
  }

  lemma Recombine(value: int, decimals: nat)
    ensures WholePart(value, decimals) * Pow10(decimals) + FracPart(value, decimals) == Abs(value)
    ensures FracPart(value, decimals) < Pow10(decimals)
  {
    DivMod(Abs(value), Pow10(decimals));
  }

  lemma QuotientSmaller(a: nat, b: nat)
    requires b > 0
    ensures 0 <= a / b <= a
  {
    var q := a / b;
    assert a == q * b + a % b;
    if q > 0 { MulLe(1, b, q); }
  }

  /** The text of `value` with `decimals` places. */
  function Text(value: int, decimals: nat): string {
    Numeral(value < 0, WholeText(WholePart(value, decimals)), FracText(FracPart(value, decimals), decimals),
            decimals > 0)
  }

  function Spaces(n: nat): (s: string)
    ensures |s| == n
  {
    seq(n, _ => ' ')
  }

  /** Right-aligned in `width` columns; a longer text is left as it is. */
  function Padded(text: string, width: int): (full: string)
    ensures |full| == if width > |text| then width else |text|
  {
    Spaces(Max(width - |text|, 0)) + text
  }

  function Reverse(s: string): (r: string)
    ensures |r| == |s| && forall i :: 0 <= i < |s| ==> r[i] == s[|s| - 1 - i]
  {
    seq(|s|, i requires 0 <= i < |s| => s[|s| - 1 - i])
  }

  lemma {:induction false} IntTextLength(n: nat, k: nat)
    requires n < Pow10(k)
    ensures |IntText(n)| <= k
  {
    if n > 0 { IntTextLength(n / 10, k - 1); }
  }

  lemma TenDigits()
    ensures Pow10(10) == 10_000_000_000
  {
    assert Pow10(3) == 1_000;
    assert Pow10(6) == 1_000_000;
    assert Pow10(9) == 1_000_000_000;
  }

  lemma {:induction false} Pow10Grows(a: nat, b: nat)
    requires a <= b
    ensures Pow10(a) <= Pow10(b)
  {
    if a < b { Pow10Grows(a, b - 1); }
  }

  lemma ScaleIsInt(decimals: nat)
    requires decimals <= 9
    ensures Pow10(decimals) <= INT_MAX
  {
    TenDigits();
    Pow10Grows(decimals, 9);
  }

  /** Every `int` but the smallest needs at most 21 of the 32 scratch bytes. */
  lemma ScratchSuffices(value: int, decimals: nat)
    requires -INT_MAX <= value <= INT_MAX && decimals <= 9
    ensures |WholeText(WholePart(value, decimals))| <= 10
    ensures |Text(value, decimals)| <= 21 < SCRATCH_SIZE
  {
    TenDigits();
    IntTextLength(WholePart(value, decimals), 10);
  }

  /**
   The loop that both routines use to get ten to the power of the number of places.  Here and below the ghost result
   says whether every value computed on the way is a C `int`.
   */
  method ScaleFor(digits: nat) returns (scale: nat, ghost inRange: bool)
    ensures scale == Pow10(digits) && (inRange <==> scale <= INT_MAX)
  {
    scale, inRange := 1, true;
    for i := 0 to digits
      invariant scale == Pow10(i) && (inRange <==> scale <= INT_MAX)
    {
      scale := scale * 10;
      inRange := inRange && scale <= INT_MAX;
    }
  }

  lemma ReverseTwice(s: string)
    ensures Reverse(Reverse(s)) == s
  {
  }

  lemma TextSplit(value: int, decimals: nat, body: string)
    requires body == WholeText(WholePart(value, decimals)) +
                     (if decimals > 0 then "." + FracText(FracPart(value, decimals), decimals) else "")
    ensures (if value < 0 then "-" else "") + body == Text(value, decimals)
  {
  }

  lemma ReversePush(s: string, c: char)
    ensures Reverse(s + [c]) == [c] + Reverse(s)
  {
  }

  /** One digit, separator or sign goes into the scratch array. */
  method Put(tmp: array<char>, n: nat, c: char) returns (n': nat)
    requires n < tmp.Length
    modifies tmp
    ensures n' == n + 1 && Reverse(tmp[..n']) == [c] + Reverse(old(tmp[..n]))
  {
    tmp[n] := c;
    n' := n + 1;
    assert tmp[..n'] == old(tmp[..n]) + [c];
    ReversePush(old(tmp[..n]), c);
  }

  /** The fraction loop, from the last digit to the first, and the point. */
  method PutFraction(tmp: array<char>, fp0: nat, decimals: nat) returns (n: nat)
    requires decimals + 1 <= tmp.Length
    modifies tmp
    ensures n == if decimals > 0 then decimals + 1 else 0
    ensures Reverse(tmp[..n]) == if decimals > 0 then "." + FracText(fp0, decimals) else ""
  {
    var fp, fpd := fp0, decimals;
    n := 0;
    while fpd > 0
      invariant n + fpd == decimals
      invariant FracText(fp, fpd) + Reverse(tmp[..n]) == FracText(fp0, decimals)
    {
      assert FracText(fp, fpd) == FracText(fp / 10, fpd - 1) + [DigitChar(fp % 10)];
      n := Put(tmp, n, '0' + (fp % 10) as char);
      fp := fp / 10;
      fpd := fpd - 1;
    }
    if decimals > 0 { n := Put(tmp, n, '.'); }
  }

  lemma Regroup(head: string, c: char, tail: string)
    ensures (head + [c]) + tail == head + ([c] + tail)
  {
  }

  /** The whole-part loop: the digits of `ip0`, none for zero. */
  method PutDigits(tmp: array<char>, n0: nat, ip0: nat) returns (n: nat)
    requires n0 + |IntText(ip0)| <= tmp.Length
    modifies tmp
    ensures n == n0 + |IntText(ip0)|
    ensures Reverse(tmp[..n]) == IntText(ip0) + Reverse(old(tmp[..n0]))
  {
    var ip := ip0;
    n := n0;
    while ip > 0
      invariant n0 <= n && n + |IntText(ip)| == n0 + |IntText(ip0)|
      invariant IntText(ip) + Reverse(tmp[..n]) == IntText(ip0) + Reverse(old(tmp[..n0]))
    {
      assert IntText(ip) == IntText(ip / 10) + [DigitChar(ip % 10)];
      Regroup(IntText(ip / 10), DigitChar(ip % 10), Reverse(tmp[..n]));
      n := Put(tmp, n, '0' + (ip % 10) as char);
      ip := ip / 10;
    }
  }

  /** The whole part; zero prints one digit. */
  method PutWhole(tmp: array<char>, n0: nat, ip0: nat) returns (n: nat)
    requires n0 + |WholeText(ip0)| <= tmp.Length
    modifies tmp
    ensures n == n0 + |WholeText(ip0)|
    ensures Reverse(tmp[..n]) == WholeText(ip0) + Reverse(old(tmp[..n0]))
  {
    if ip0 == 0 {
      n := Put(tmp, n0, '0');
    } else {
      n := PutDigits(tmp, n0, ip0);
    }
  }

  /** The first half of `fmt_fixed`: the reversed digits, separator and sign in the scratch array. */
  method FmtScratch(value: int, decimals: nat) returns (tmp: array<char>, n: nat)
    requires -INT_MAX <= value <= INT_MAX && decimals <= 9
    ensures fresh(tmp) && tmp.Length == SCRATCH_SIZE && n <= tmp.Length
    ensures tmp[..n] == Reverse(Text(value, decimals))
  {
    ScratchSuffices(value, decimals);
    var neg := value < 0;
    var magnitude: nat := if neg then -value else value;
    var scale, inRange := ScaleFor(decimals);
    assert inRange && magnitude <= INT_MAX by { ScaleIsInt(decimals); }
    QuotientSmaller(magnitude, scale);
    var ip := magnitude / scale;
    var fp := magnitude % scale;
    tmp := new char[SCRATCH_SIZE];
    n := PutFraction(tmp, fp, decimals);
    n := PutWhole(tmp, n, ip);
    ghost var body := Reverse(tmp[..n]);
    if neg { n := Put(tmp, n, '-'); }
    assert Reverse(tmp[..n]) == (if neg then "-" else "") + body;
    TextSplit(value, decimals, body);
    ReverseTwice(tmp[..n]);
  }

  /**
   `fmt_fixed`: the padded text, cut to fit and closed with a NUL.  The digits are produced in
   reverse in a scratch array and copied back to front.
   */
  method FmtFixed(buf: array<char>, max: nat, value: int, decimals: nat, width: int) returns (out: nat)
    requires 0 < max <= buf.Length && -INT_MAX <= value <= INT_MAX && decimals <= 9
    modifies buf
    ensures out == Min(|Padded(Text(value, decimals), width)|, max - 1)
    ensures buf[..out] == Padded(Text(value, decimals), width)[..out] && buf[out] == '\0'
    ensures forall k :: out < k < buf.Length ==> buf[k] == old(buf[k])
  {
    var tmp, n := FmtScratch(value, decimals);
    out := CopyOut(buf, max, tmp, n, width, Text(value, decimals));
  }

  /** The second half of `fmt_fixed`: spaces, then the scratch array back to front. */
  method CopyOut(buf: array<char>, max: nat, tmp: array<char>, n0: nat, width: int, ghost text: string)
    returns (out: nat)
    requires 0 < max <= buf.Length && buf != tmp && n0 <= tmp.Length && tmp[..n0] == Reverse(text)
    modifies buf
    ensures out == Min(|Padded(text, width)|, max - 1)
    ensures buf[..out] == Padded(text, width)[..out] && buf[out] == '\0'
    ensures forall k :: out < k < buf.Length ==> buf[k] == old(buf[k])
  {
    ghost var full := Padded(text, width);
    var pad: nat := if width > n0 then width - n0 else 0;
    ghost var lead := pad;
    out := 0;
    while pad > 0 && out < max - 1
      invariant out <= max - 1 && out + pad == lead
      invariant forall k :: 0 <= k < out ==> buf[k] == full[k]
      invariant forall k :: out <= k < buf.Length ==> buf[k] == old(buf[k])
    {
      buf[out] := ' ';
      out := out + 1;
      pad := pad - 1;
    }
    var n := n0;
    while n > 0 && out < max - 1
      invariant out <= max - 1 && n <= n0
      invariant if pad > 0 then out == max - 1 && n == n0 else out + n == |full|
      invariant out <= |full|
      invariant forall k :: 0 <= k < out ==> buf[k] == full[k]
      invariant forall k :: out <= k < buf.Length ==> buf[k] == old(buf[k])
    {
      n := n - 1;
      assert tmp[n] == tmp[..n0][n] == text[n0 - 1 - n] == full[out];
      buf[out] := tmp[n];
      out := out + 1;
    }
    buf[out] := '\0';
  }

  // ---- Parsing ----

  /** How many digits a string starts with. */
  function LeadingDigits(s: string): (n: nat)
    ensures n <= |s| && AllDigits(s[..n]) && (n < |s| ==> !IsDigit(s[n]))
  {
    if s == "" || !IsDigit(s[0]) then 0 else 1 + LeadingDigits(s[1..])
  }

  lemma LeadingDigitsUnique(s: string, n: nat)
    requires n <= |s| && AllDigits(s[..n]) && (n < |s| ==> !IsDigit(s[n]))
    ensures LeadingDigits(s) == n
  {
    var m := LeadingDigits(s);
    assert forall i :: 0 <= i < n ==> s[i] == s[..n][i];
    assert forall i :: 0 <= i < m ==> s[i] == s[..m][i];
  }

  function Signed(s: string): (r: (int, string))
    ensures r.0 == 1 || r.0 == -1
  {
    if s != "" && s[0] == '-' then (-1, s[1..])
    else if s != "" && s[0] == '+' then (1, s[1..])
    else (1, s)
  }

  /** Fraction digits scaled to `d` places: missing ones are zeros, extra ones are dropped. */
  function Scaled(frac: string, d: nat): nat
    requires AllDigits(frac)
  {
    if |frac| >= d then Num(frac[..d]) else Num(frac) * Pow10(d - |frac|)
  }

  /** The digits after the point, if there is one. */
  function Fraction(rest: string): (f: string)
    ensures AllDigits(f)
  {
    if rest != "" && rest[0] == '.' then rest[1..][..LeadingDigits(rest[1..])] else ""
  }

  /** Multiplication by a sign. */
  function WithSign(sign: int, magnitude: nat): (v: int)
    requires sign == 1 || sign == -1
  {
    if sign == 1 then magnitude else -(magnitude as int)
  }

  /** Whole part and fraction in units of 10^-d. */
  function Units(whole: nat, frac: string, d: nat): nat
    requires AllDigits(frac)
  {
    whole * Pow10(d) + Scaled(frac, d)
  }

  /** Digits, then optionally a point and more digits; whatever follows is ignored. */
  function ParsedBody(body: string, d: nat): Option<nat> {
    var k := LeadingDigits(body);
    if k == 0 then None else Some(Units(Num(body[..k]), Fraction(body[k..]), d))
  }

  /** `parse_fixed` in units of 10^-d. */
  function Parsed(s: string, d: nat): Option<int> {
    var (sign, body) := Signed(s);
    match ParsedBody(body, d)
    case None => None
    case Some(m) => Some(WithSign(sign, m))
  }

  /** Are all values that `parse_fixed` computes from the digits on C `int`s? */
  predicate BodyInRange(body: string, d: nat) {
    var k := LeadingDigits(body);
    && Num(body[..k]) <= INT_MAX && Scaled(Fraction(body[k..]), d) <= INT_MAX
    && (k > 0 ==> Pow10(d) <= INT_MAX && Units(Num(body[..k]), Fraction(body[k..]), d) <= INT_MAX)
  }

  predicate InRange(s: string, d: nat) {
    BodyInRange(Signed(s).1, d)
  }

  /** Read digits from `start` on, at most `limit` of them. */
  method ScanDigits(s: string, start: nat, limit: nat) returns (i: nat, v: nat, ghost inRange: bool)
    requires start <= |s|
    ensures start <= i <= |s| && i - start <= limit && AllDigits(s[start..i]) && v == Num(s[start..i])
    ensures i < |s| && i - start < limit ==> !IsDigit(s[i])
    ensures inRange <==> v <= INT_MAX
  {
    i, v, inRange := start, 0, true;
    while i < |s| && IsDigit(s[i]) && i - start < limit
      invariant start <= i <= |s| && i - start <= limit
      invariant AllDigits(s[start..i]) && v == Num(s[start..i])
      invariant inRange <==> v <= INT_MAX
    {
      NumPush(s[start..i], s[i]);
      assert s[start..i + 1] == s[start..i] + [s[i]];
      v := v * 10 + (s[i] as int - '0' as int);
      inRange := inRange && v <= INT_MAX;
      i := i + 1;
    }
  }

  lemma ProductShift(a: nat, b: nat)
    ensures a * (10 * b) == a * b * 10
  {
  }

  /** The last loop of `parse_fixed`: one factor of ten for each missing digit. */
  method ScaleUp(fp0: nat, have: nat, d: nat) returns (fp: nat, ghost inRange: bool)
    ensures fp == if have < d then fp0 * Pow10(d - have) else fp0
    ensures fp >= fp0 && (inRange <==> fp <= INT_MAX)
  {
    var fdigits := have;
    fp, inRange := fp0, fp0 <= INT_MAX;
    while fdigits < d
      invariant have <= fdigits && (fdigits <= d || fdigits == have)
      invariant fp == fp0 * Pow10(fdigits - have)
      invariant fp >= fp0 && (inRange <==> fp <= INT_MAX)
    {
      assert Pow10(fdigits + 1 - have) == 10 * Pow10(fdigits - have);
      ProductShift(fp0, Pow10(fdigits - have));
      fp := fp * 10;
      inRange := inRange && fp <= INT_MAX;
      fdigits := fdigits + 1;
    }
  }

  /** Skips the digits from `i` on. */
  method SkipDigits(s: string, i: nat) returns (j: nat)
    requires i <= |s|
    ensures i <= j <= |s| && AllDigits(s[i..j]) && (j < |s| ==> !IsDigit(s[j]))
  {
    j := i;
    while j < |s| && IsDigit(s[j])
      invariant i <= j <= |s| && AllDigits(s[i..j])
    {
      assert s[i..j + 1] == s[i..j] + [s[j]];
      j := j + 1;
    }
  }

  /** The digits after the point: at most `d` of them are read, the others skipped. */
  method ReadFraction(rest: string, d: nat) returns (fp: nat, fdigits: nat, ghost inRange: bool)
    requires rest != "" && rest[0] == '.'
    ensures fdigits == Min(|Fraction(rest)|, d) && fp == Num(Fraction(rest)[..fdigits])
    ensures inRange <==> fp <= INT_MAX
  {
    var i, j;
    i, fp, inRange := ScanDigits(rest, 1, d);
    j := SkipDigits(rest, i);
    fdigits := i - 1;
    ghost var frac := rest[1..];
    assert frac[..j - 1] == rest[1..i] + rest[i..j];
    LeadingDigitsUnique(frac, j - 1);
    assert Fraction(rest)[..fdigits] == rest[1..i];
  }

  /** The part of `parse_fixed` from the point on: up to `d` digits, scaled to `d` places. */
  method ParseFraction(rest: string, d: nat) returns (fp: nat, ghost inRange: bool)
    ensures fp == Scaled(Fraction(rest), d) && (inRange <==> fp <= INT_MAX)
  {
    var fdigits := 0;
    fp, inRange := 0, true;
    if rest != "" && rest[0] == '.' {
      fp, fdigits, inRange := ReadFraction(rest, d);
    }
    ghost var digits := Fraction(rest);
    assert fdigits == Min(|digits|, d) && fp == Num(digits[..fdigits]);
    assert digits[..|digits|] == digits;
    ghost var scaledInRange;
    fp, scaledInRange := ScaleUp(fp, fdigits, d);
    inRange := inRange && scaledInRange;
  }

  /** The last step: whole part and fraction in units of 10^-d. */
  method Combine(ip: nat, fp: nat, d: nat) returns (m: nat, ghost inRange: bool)
    ensures m == ip * Pow10(d) + fp
    ensures inRange <==> Pow10(d) <= INT_MAX && m <= INT_MAX
  {
    var scale;
    scale, inRange := ScaleFor(d);
    var product := ip * scale;
    m := product + fp;
    inRange := inRange && product <= INT_MAX && m <= INT_MAX;
  }

  /** The part of `parse_fixed` after the sign. */
  method ParseBody(body: string, d: nat) returns (m: Option<nat>, ghost inRange: bool)
    ensures m == ParsedBody(body, d) && (inRange <==> BodyInRange(body, d))
  {
    var i, ip, ipInRange := ScanDigits(body, 0, |body|);
    assert body[..i] == body[0..i];
    LeadingDigitsUnique(body, i);
    var fp, fpInRange := ParseFraction(body[i..], d);
    inRange := ipInRange && fpInRange;
    if i == 0 { return None, inRange; }
    var units, unitsInRange := Combine(ip, fp, d);
    assert units == Units(Num(body[..i]), Fraction(body[i..]), d);
    return Some(units), inRange && unitsInRange;
  }

  /** `parse_fixed`; its result is C's exactly when no step leaves `int`, which is undefined in C. */
  method ParseFixed(s: string, scaleDigits: nat) returns (result: Option<int>, ghost inRange: bool)
    ensures result == Parsed(s, scaleDigits)
    ensures inRange <==> InRange(s, scaleDigits)
    ensures inRange && result.Some? ==> -INT_MAX <= result.value <= INT_MAX
  {
    var sign: int, start: nat := 1, 0;
    if s != "" && s[0] == '-' {
      sign := -1;
      start := 1;
    } else if s != "" && s[0] == '+' {
      start := 1;
    }
    var m;
    m, inRange := ParseBody(s[start..], scaleDigits);
    assert Signed(s) == (sign, s[start..]);
    if m.None? { return None, inRange; }
    return Some(WithSign(sign, m.value)), inRange;
  }
}
