/** Parsing and printing of 8-decimal fixed-point numbers, and their checksum digits. */
module FixedPoint {
  import opened Common
  import opened Checksum

  predicate IsDigit(c: char) { '0' <= c <= '9' }

  function Digit(c: char): int { c as int - '0' as int }

  predicate AllDigits(s: string) { forall i :: 0 <= i < |s| ==> IsDigit(s[i]) }

  /** The number a string of digits denotes; the empty string denotes 0. */
  function NumVal(s: string): (n: nat)
    requires AllDigits(s)
  {
    if s == "" then 0 else NumVal(s[..|s| - 1]) * 10 + Digit(s[|s| - 1])
  }

  function Pow10(n: nat): (p: nat)
    ensures p >= 1
  {
    if n == 0 then 1 else 10 * Pow10(n - 1)
  }

  const SCALE_DIGITS: nat := 8

  /** What a string of digits denotes after the point, in units of 1/SCALE. */
  function FracVal(f: string): (n: nat)
    requires AllDigits(f)
  {
    if f == "" then 0
    else
      var i := |f| - 1;
      FracVal(f[..i]) + if i < SCALE_DIGITS then Digit(f[i]) * Pow10(SCALE_DIGITS - 1 - i) else 0
  }

  /** Index of the first '.', or the length when there is none. */
  function DotAt(s: string): (i: nat)
    ensures i <= |s| && '.' !in s[..i] && (i < |s| ==> s[i] == '.')
  {
    if s == "" || s[0] == '.' then 0 else 1 + DotAt(s[1..])
  }

  function IntPart(s: string): string { s[..DotAt(s)] }
  function FracPart(s: string): string { if DotAt(s) < |s| then s[DotAt(s) + 1..] else "" }

  /** Digits, with an optional point somewhere, and only zeros beyond the eighth decimal. */
  predicate IsDecimal(s: string) {
    && IntPart(s) + FracPart(s) != ""
    && AllDigits(IntPart(s)) && AllDigits(FracPart(s))
    && forall k :: SCALE_DIGITS <= k < |FracPart(s)| ==> FracPart(s)[k] == '0'
  }

  /** The exact value of a decimal, in units of 1/SCALE. */
  function Scaled(s: string): (n: nat)
    requires IsDecimal(s)
  {
    NumVal(IntPart(s)) * SCALE + FracVal(FracPart(s))
  }

  const MAX_WHOLE: nat := 92233720368

  /** The integer-part loop: fails as soon as the next digit would overflow int64. */
  method ParseWhole(s: string) returns (r: Option<Int64>)
    ensures r.Some? <==> AllDigits(s) && NumVal(s) <= MAX_INT64
    ensures r.Some? ==> r.value == NumVal(s)
  {
    var n := 0;
    for i := 0 to |s|
      invariant AllDigits(s[..i]) && n == NumVal(s[..i]) <= MAX_INT64
    {
      assert s[..i + 1][..i] == s[..i];
      if !IsDigit(s[i]) {
        return None;
      }
      var d := Digit(s[i]);
      if n > (MAX_INT64 - d) / 10 {
        if AllDigits(s) { NumValGrows(s, i + 1); }
        return None;
      }
      n := n * 10 + d;
    }
    assert s[..|s|] == s;
    return Some(n);
  }

  lemma {:induction false} NumValGrows(s: string, i: nat)
    requires AllDigits(s) && i <= |s|
    ensures NumVal(s[..i]) <= NumVal(s)
    decreases |s|
  {
    if i == |s| {
      assert s[..i] == s;
    } else {
      var t := s[..|s| - 1];
      assert t[..i] == s[..i];
      NumValGrows(t, i);
    }
  }

  lemma {:induction false} FracStep(scaled: Int64, f: string, i: nat)
    requires i < |f| && i < SCALE_DIGITS && AllDigits(f[..i + 1])
    ensures AllDigits(f[..i])
    ensures Wrap64(Wrap64(scaled + FracVal(f[..i])) + Digit(f[i]) * Pow10(SCALE_DIGITS - 1 - i))
      == Wrap64(scaled + FracVal(f[..i + 1]))
  {
    var g := f[..i + 1];
    assert g[..i] == f[..i] && g[i] == f[i];
    WrapAdd(scaled + FracVal(f[..i]), Digit(f[i]) * Pow10(SCALE_DIGITS - 1 - i));
  }

  /** The fraction loop: adds digit by digit, without an overflow check; beyond the eighth only zeros pass. */
  method AddFraction(scaled: Int64, f: string) returns (r: Option<Int64>)
    ensures r.Some? <==> AllDigits(f) && forall k :: SCALE_DIGITS <= k < |f| ==> f[k] == '0'
    ensures r.Some? ==> r.value == Wrap64(scaled + FracVal(f))
  {
    hide Wrap64;
    var n := scaled;
    for i := 0 to |f|
      invariant AllDigits(f[..i])
      invariant forall k :: SCALE_DIGITS <= k < i ==> f[k] == '0'
      invariant n == Wrap64(scaled + FracVal(f[..i]))
    {
      if !IsDigit(f[i]) {
        return None;
      }
      assert f[..i + 1][..i] == f[..i];
      if i >= SCALE_DIGITS {
        if f[i] != '0' {
          return None;
        }
        continue;
      }
      var mul := 1;
      for p := 0 to SCALE_DIGITS - 1 - i
        invariant mul == Pow10(p)
      {
        mul := mul * 10;
      }
      FracStep(scaled, f, i);
      n := Wrap64(n + Digit(f[i]) * mul);
    }
    assert f[..|f|] == f;
    return Some(n);
  }

  /** Accepts exactly the decimals whose integer part leaves room for scaling, and returns the exact
      value wrapped to int64. */
  method ParseFixed(s: string) returns (r: Option<Int64>)
    ensures r.Some? <==> IsDecimal(s) && NumVal(IntPart(s)) <= MAX_WHOLE
    ensures r.Some? ==> r.value == Wrap64(Scaled(s))
  {
    if s == "" {
      return None;
    }
    var intPart, fracPart := IntPart(s), FracPart(s);
    if intPart == "" && fracPart == "" {
      return None;
    }
    var whole := ParseWhole(intPart);
    if whole.None? || whole.value > MAX_INT64 / SCALE {
      return None;
    }
    r := AddFraction(whole.value * SCALE, fracPart);
  }

  lemma {:induction false} Pow10Add(a: nat, b: nat)
    ensures Pow10(a + b) == Pow10(a) * Pow10(b)
  {
    if a > 0 {
      Pow10Add(a - 1, b);
    }
  }

  /** Up to eight decimals denote their own number, shifted. */
  lemma {:induction false} FracIsShifted(f: string)
    requires AllDigits(f) && |f| <= SCALE_DIGITS
    ensures FracVal(f) == NumVal(f) * Pow10(SCALE_DIGITS - |f|)
  {
    if f != "" {
      var g := f[..|f| - 1];
      var unit := Pow10(SCALE_DIGITS - |f|);
      FracIsShifted(g);
      Shift(NumVal(g), Digit(f[|f| - 1]), unit);
    }
  }

  lemma Shift(x: int, d: int, unit: int)
    ensures x * (10 * unit) + d * unit == (x * 10 + d) * unit
  {
  }

  lemma {:induction false} NumValBound(s: string)
    requires AllDigits(s)
    ensures NumVal(s) < Pow10(|s|)
  {
    if s != "" {
      NumValBound(s[..|s| - 1]);
    }
  }

  /** A fraction is less than one. */
  lemma {:induction false} FracBound(f: string)
    requires AllDigits(f)
    ensures FracVal(f) < SCALE
    decreases |f|
  {
    if |f| > SCALE_DIGITS {
      FracBound(f[..|f| - 1]);
    } else {
      FracIsShifted(f);
      NumValBound(f);
      Pow10Add(|f|, SCALE_DIGITS - |f|);
      EightZeros();
      MulLess(NumVal(f), Pow10(|f|), Pow10(SCALE_DIGITS - |f|));
    }
  }

  lemma MulLess(a: nat, b: nat, c: nat)
    requires a < b && c > 0
    ensures a * c < b * c
  {
  }

  lemma EightZeros()
    ensures Pow10(8) == SCALE
  {
  }

  /** An accepted string parses to its exact value unless it has the largest whole part and a fraction
      above .54775807; then it wraps to a negative number. */
  lemma {:induction false} ParseExactIff(s: string)
    requires IsDecimal(s) && NumVal(IntPart(s)) <= MAX_WHOLE
    ensures Wrap64(Scaled(s)) == Scaled(s) <==> NumVal(IntPart(s)) < MAX_WHOLE || FracVal(FracPart(s)) <= 54775807
    ensures Wrap64(Scaled(s)) != Scaled(s) ==> Wrap64(Scaled(s)) < 0
  {
    FracBound(FracPart(s));
  }

  lemma {:induction false} DotIs(s: string, i: nat)
    requires i < |s| && s[i] == '.' && '.' !in s[..i]
    ensures DotAt(s) == i
  {
  }

  /** The numeral of n, as %d prints it. */
  function Dec(n: nat): (s: string)
    ensures AllDigits(s) && NumVal(s) == n
    ensures |s| >= 1 && (s[0] == '0' ==> n == 0 && s == "0")
  {
    if n < 10 then
      var s := [(n + '0' as int) as char];
      assert NumVal(s[..0]) == 0;
      s
    else
      var front, s := Dec(n / 10), Dec(n / 10) + [(n % 10 + '0' as int) as char];
      assert s[..|s| - 1] == front;
      s
  }

  /** A numeral of at most k digits. */
  lemma {:induction false} DecLength(n: nat, k: nat)
    requires n < Pow10(k) && k >= 1
    ensures |Dec(n)| <= k
    ensures k >= 2 && n >= Pow10(k - 1) ==> |Dec(n)| == k
  {
    if n >= 10 {
      DecLength(n / 10, k - 1);
    }
  }

  lemma {:induction false} EightNines()
    ensures |Dec(99999999)| == 8 && FracVal(Dec(99999999)) == 99999999
  {
    EightZeros();
    assert Pow10(8) == 10 * Pow10(7);
    DecLength(99999999, 8);
    FracIsShifted(Dec(99999999));
  }

  /** Such strings exist: 92233720368.99999999 parses to a negative number. */
  lemma {:induction false} ParseCanWrap()
    ensures var s := Dec(92233720368) + "." + Dec(99999999);
      IsDecimal(s) && NumVal(IntPart(s)) <= MAX_WHOLE && Wrap64(Scaled(s)) < 0
  {
    hide Dec, Scaled, NumVal, FracVal;
    var whole, frac := Dec(92233720368), Dec(99999999);
    var s := whole + "." + frac;
    DotIs(s, |whole|);
    assert IntPart(s) == whole && FracPart(s) == frac;
    EightNines();
    ParseExactIff(s);
  }

  function LeftPad(s: string, width: nat): (r: string)
    requires AllDigits(s)
    ensures AllDigits(r) && |r| == Max(|s|, width)
    decreases width - |s|
  {
    if |s| >= width then s else LeftPad("0" + s, width)
  }

  function TrimRight(s: string): (r: string)
    ensures r <= s
  {
    if s != "" && s[|s| - 1] == '0' then TrimRight(s[..|s| - 1]) else s
  }

  /** %d and %08d, sign included in the width. */
  function DecInt(x: int): string {
    if x < 0 then "-" + Dec(-x) else Dec(x)
  }

  function Dec08(x: int): string {
    if x < 0 then "-" + LeftPad(Dec(-x), 7) else LeftPad(Dec(x), 8)
  }

  /** n units of 1/SCALE as a decimal without trailing zeros. */
  function Format(n: nat): string {
    Dec(n / SCALE) + if n % SCALE == 0 then "" else "." + TrimRight(LeftPad(Dec(n % SCALE), 8))
  }

  /** Negating the least int64 leaves it negative, so its parts print with signs of their own. */
  method FormatFixed(n: Int64) returns (b: string)
    ensures n >= 0 ==> b == Format(n)
    ensures MIN_INT64 < n < 0 ==> b == "-" + Format(-n)
    ensures n == MIN_INT64 ==> b == "--" + Dec(92233720368) + ".-" + Dec(54775808)
  {
    hide Dec, LeftPad, TrimRight;
    var neg := n < 0;
    var wide: int := n;
    var m := if neg then Wrap64(-wide) else n;
    var whole, frac := TruncDiv(m, SCALE), TruncMod(m, SCALE);
    b := "";
    if neg {
      b := b + "-";
    }
    b := b + DecInt(whole);
    if frac != 0 {
      var fs := TrimRight(Dec08(frac));
      b := b + ".";
      b := b + fs;
    }
    if n == MIN_INT64 {
      LeastParts();
    }
  }

  lemma LeastParts()
    ensures Wrap64(-MIN_INT64) == MIN_INT64
    ensures TruncDiv(MIN_INT64, SCALE) == -92233720368 && TruncMod(MIN_INT64, SCALE) == -54775808
    ensures TrimRight(Dec08(-54775808)) == "-" + Dec(54775808)
  {
    EightZeros();
    assert Pow10(8) == 10 * Pow10(7);
    DecLength(54775808, 8);
    assert Dec(54775808)[7] == '8';
  }

  lemma {:induction false} NumValOf(s: string, a: string, b: string)
    requires AllDigits(a) && AllDigits(b) && s == a + b
    ensures NumVal(s) == NumVal(a) * Pow10(|b|) + NumVal(b)
  {
    if b == "" {
      assert s == a;
    } else {
      var front, d := b[..|b| - 1], Digit(b[|b| - 1]);
      assert s[..|s| - 1] == a + front && Digit(s[|s| - 1]) == d;
      NumValOf(s[..|s| - 1], a, front);
      AppendDigit(NumVal(a), Pow10(|front|), NumVal(front), d);
    }
  }

  lemma AppendDigit(x: int, p: int, y: int, d: int)
    ensures (x * p + y) * 10 + d == x * (10 * p) + (y * 10 + d)
  {
  }

  lemma {:induction false} PadKeepsValue(s: string, width: nat)
    requires AllDigits(s)
    ensures NumVal(LeftPad(s, width)) == NumVal(s)
    decreases width - |s|
  {
    if |s| < width {
      NumValOf("0" + s, "0", s);
      PadKeepsValue("0" + s, width);
    }
  }

  lemma {:induction false} TrimKeepsFrac(f: string)
    requires AllDigits(f)
    ensures AllDigits(TrimRight(f)) && FracVal(TrimRight(f)) == FracVal(f)
  {
    if f != "" && f[|f| - 1] == '0' {
      TrimKeepsFrac(f[..|f| - 1]);
    }
  }

  lemma {:induction false} PadEight(x: nat)
    requires x < SCALE
    ensures |LeftPad(Dec(x), 8)| == 8 && NumVal(LeftPad(Dec(x), 8)) == x
  {
    hide Dec, NumVal;
    EightZeros();
    DecLength(x, 8);
    PadKeepsValue(Dec(x), 8);
  }

  /** The digits printed for a fraction denote that fraction. */
  lemma {:induction false} FracDigits(x: nat)
    requires x < SCALE
    ensures var f := TrimRight(LeftPad(Dec(x), 8));
      AllDigits(f) && |f| <= 8 && FracVal(f) == x
  {
    hide Dec, NumVal, LeftPad, FracVal;
    var f := LeftPad(Dec(x), 8);
    PadEight(x);
    TrimKeepsFrac(f);
    FracIsShifted(f);
  }

  /** Printing any non-negative int64 and parsing it back gives it back, exactly. */
  lemma {:induction false} RoundTrip(n: Int64)
    requires n >= 0
    ensures var s := Format(n);
      IsDecimal(s) && NumVal(IntPart(s)) <= MAX_WHOLE && Scaled(s) == n == Wrap64(Scaled(s))
  {
    var s, whole := Format(n), Dec(n / SCALE);
    assert '.' !in whole;
    if n % SCALE == 0 {
      NoDot(s);
      assert IntPart(s) == whole && FracPart(s) == "";
    } else {
      var f := TrimRight(LeftPad(Dec(n % SCALE), 8));
      FracDigits(n % SCALE);
      DotIs(s, |whole|);
      assert IntPart(s) == whole && FracPart(s) == f;
    }
  }

  lemma {:induction false} NoDot(s: string)
    requires '.' !in s
    ensures DotAt(s) == |s|
  {
  }

  lemma {:induction false} RemoveDotsSplit(a: string, b: string)
    ensures RemoveDots(a + b) == RemoveDots(a) + RemoveDots(b)
  {
    if a == "" {
      assert a + b == b;
    } else {
      assert (a + b)[1..] == a[1..] + b;
      RemoveDotsSplit(a[1..], b);
    }
  }

  lemma {:induction false} NothingToRemove(s: string)
    requires AllDigits(s)
    ensures RemoveDots(s) == s
  {
    if s != "" {
      NothingToRemove(s[1..]);
    }
  }

  lemma {:induction false} TrimKeepsValue(s: string)
    requires AllDigits(s)
    ensures AllDigits(TrimZeros(s)) && NumVal(TrimZeros(s)) == NumVal(s)
    ensures TrimZeros(s) != "" ==> TrimZeros(s)[0] != '0'
  {
    if s != "" && s[0] == '0' {
      NumValOf(s, "0", s[1..]);
      TrimKeepsValue(s[1..]);
    }
  }

  lemma {:induction false} SplitAtDot(s: string)
    ensures s == IntPart(s) + (if DotAt(s) < |s| then "." else "") + FracPart(s)
  {
  }

  lemma {:induction false} DotsRemoved(s: string)
    requires AllDigits(IntPart(s)) && AllDigits(FracPart(s))
    ensures RemoveDots(s) == IntPart(s) + FracPart(s)
  {
    hide IntPart, FracPart, DotAt, RemoveDots;
    var a, b, dot := IntPart(s), FracPart(s), if DotAt(s) < |s| then "." else "";
    SplitAtDot(s);
    RemoveDotsSplit(a + dot, b);
    RemoveDotsSplit(a, dot);
    NothingToRemove(a);
    NothingToRemove(b);
    OnlyDots(dot);
  }

  lemma OnlyDots(dot: string)
    requires dot == "" || dot == "."
    ensures RemoveDots(dot) == ""
  {
  }

  /** The checksum digits of a decimal with at most eight decimals: no leading zero, and the number they form,
      shifted to eight decimals, is the exact value. */
  lemma {:induction false} FmtValDenotes(s: string)
    requires IsDecimal(s) && |FracPart(s)| <= SCALE_DIGITS
    ensures var t := FmtVal(s);
      && AllDigits(t) && (t != "" ==> t[0] != '0')
      && NumVal(t) * Pow10(SCALE_DIGITS - |FracPart(s)|) == Scaled(s)
  {
    hide NumVal, FracVal, TrimZeros, RemoveDots, IntPart, FracPart;
    var a, b := IntPart(s), FracPart(s);
    DotsRemoved(s);
    NumValOf(a + b, a, b);
    TrimKeepsValue(a + b);
    FracIsShifted(b);
    Pow10Add(|b|, SCALE_DIGITS - |b|);
    EightZeros();
    Regroup(NumVal(a), Pow10(|b|), NumVal(b), Pow10(SCALE_DIGITS - |b|));
  }

  lemma Regroup(x: int, p: int, y: int, q: int)
    ensures (x * p + y) * q == x * (p * q) + y * q
  {
  }

  /** Digits without a leading zero are determined by their number. */
  lemma {:induction false} NumeralUnique(s: string, t: string)
    requires AllDigits(s) && AllDigits(t) && NumVal(s) == NumVal(t)
    requires (s != "" ==> s[0] != '0') && (t != "" ==> t[0] != '0')
    ensures s == t
  {
    if s == "" || t == "" {
      LeadingDigit(s);
      LeadingDigit(t);
    } else {
      var a, b := s[..|s| - 1], t[..|t| - 1];
      assert NumVal(a) == NumVal(b) && Digit(s[|s| - 1]) == Digit(t[|t| - 1]);
      NumeralUnique(a, b);
      assert s == a + [s[|s| - 1]] && t == b + [t[|t| - 1]];
    }
  }

  lemma {:induction false} LeadingDigit(s: string)
    requires AllDigits(s) && (s != "" ==> s[0] != '0')
    ensures s != "" ==> NumVal(s) > 0
  {
    if |s| > 1 {
      LeadingDigit(s[..|s| - 1]);
    }
  }

  /** Among decimals written to the same precision, equal checksum digits mean equal values. */
  lemma {:induction false} FmtValFaithful(s: string, t: string)
    requires IsDecimal(s) && IsDecimal(t) && |FracPart(s)| == |FracPart(t)| <= SCALE_DIGITS
    ensures FmtVal(s) == FmtVal(t) <==> Scaled(s) == Scaled(t)
  {
    FmtValDenotes(s);
    FmtValDenotes(t);
    var unit := Pow10(SCALE_DIGITS - |FracPart(s)|);
    if Scaled(s) == Scaled(t) {
      MulCancel(NumVal(FmtVal(s)), NumVal(FmtVal(t)), unit);
      NumeralUnique(FmtVal(s), FmtVal(t));
    }
  }

  lemma MulCancel(a: nat, b: nat, c: nat)
    requires c > 0 && a * c == b * c
    ensures a == b
  {
  }
}
