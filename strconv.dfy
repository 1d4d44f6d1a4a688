/**
 * The parts of Go's strconv package that number.go, reqid.go and the
 * speedometer rely on: ParseUint with an explicit base and bit size, and
 * FormatUint / FormatInt in bases 2 to 36 with the digits 0-9a-z.
 */
module Strconv {
  import opened Wrappers
  import opened GoInt
  import opened Arith

  /** The two failures ParseUint reports: a malformed string, or a value too large. */
  datatype NumError = ErrSyntax | ErrRange

  predicate IsBase(base: int) {
    2 <= base <= 36
  }

  /** The digit ParseUint reads for `c`: 0-9, then letters in either case for 10-35. */
  function DigitValue(c: char): (r: Option<nat>)
    ensures r.Some? ==> r.value < 36
  {
    if '0' <= c <= '9' then Some(c as int - '0' as int)
    else if 'a' <= c <= 'z' then Some(c as int - 'a' as int + 10)
    else if 'A' <= c <= 'Z' then Some(c as int - 'A' as int + 10)
    else None
  }

  predicate IsDigit(c: char, base: nat) {
    DigitValue(c).Some? && DigitValue(c).value < base
  }

  predicate AllDigits(s: string, base: nat) {
    forall i :: 0 <= i < |s| ==> IsDigit(s[i], base)
  }

  /** The number that the digit string `s` denotes in `base`, most significant digit first. */
  function Value(s: string, base: nat): nat
    requires AllDigits(s, base)
  {
    if s == [] then 0
    else Value(s[..|s| - 1], base) * base + DigitValue(s[|s| - 1]).value
  }

  /** The digit FormatUint writes for `d`: 0-9, then lower-case a-z. */
  function DigitChar(d: nat): (c: char)
    requires d < 36
    ensures DigitValue(c) == Some(d)
    ensures '0' <= c <= '9' || 'a' <= c <= 'z'
  {
    if d < 10 then ('0' as int + d) as char else ('a' as int + d - 10) as char
  }

  /** How FormatUint writes numbers: lower-case digits, no leading zero except in "0" itself. */
  predicate Canonical(s: string, base: nat) {
    && s != []
    && AllDigits(s, base)
    && (forall i :: 0 <= i < |s| ==> !('A' <= s[i] <= 'Z'))
    && (s[0] == '0' ==> |s| == 1)
  }

  /** strconv.FormatUint(v, base). */
  function FormatUint(v: nat, base: nat): (s: string)
    requires IsBase(base)
    ensures Canonical(s, base)
    ensures Value(s, base) == v
    decreases v
  {
    if v < base then
      var s := [DigitChar(v)];
      assert s[..0] == [];
      s
    else
      DivideByBase(v, base);
      var high := FormatUint(v / base, base);
      AppendDigit(high, v % base, base);
      high + [DigitChar(v % base)]
  }

  lemma DivideByBase(v: nat, base: nat)
    requires IsBase(base) && v >= base
    ensures 1 <= v / base < v && v % base < base
    ensures (v / base) * base + v % base == v
  {
    var q, r := v / base, v % base;
    assert v == q * base + r;
    MulNonNegative(q, base - 2);
    assert q * base == 2 * q + q * (base - 2);
  }

  /** Writing one more digit after `high` multiplies by the base and adds the digit. */
  lemma AppendDigit(high: string, d: nat, base: nat)
    requires IsBase(base) && d < base && Canonical(high, base)
    ensures var s := high + [DigitChar(d)];
      && AllDigits(s, base)
      && (forall i :: 0 <= i < |s| ==> !('A' <= s[i] <= 'Z'))
      && s[0] == high[0]
      && Value(s, base) == Value(high, base) * base + d
  {
    var s := high + [DigitChar(d)];
    assert s[..|s| - 1] == high;
    forall i | 0 <= i < |s| ensures IsDigit(s[i], base) && !('A' <= s[i] <= 'Z') {
      if i < |high| { assert s[i] == high[i]; }
    }
  }

  /** strconv.FormatInt(i, base): a minus sign, then the magnitude. */
  function FormatInt(i: int, base: nat): (s: string)
    requires IsBase(base)
    ensures i >= 0 ==> Canonical(s, base) && Value(s, base) == i
    ensures i < 0 ==> |s| > 1 && s[0] == '-' && Canonical(s[1..], base) && Value(s[1..], base) == -i
  {
    if i < 0 then "-" + FormatUint(-i, base) else FormatUint(i, base)
  }

  /** The largest value of the unsigned integer types ParseUint is asked for here. */
  function MaxValue(bitSize: nat): (m: nat)
    requires bitSize == 32 || bitSize == 64
  {
    if bitSize == 32 then MaxUint32 else MaxUint64
  }

  /** strconv.ParseUint(s, base, bitSize) for an explicit base (no prefix, sign or underscores). */
  function ParseUint(s: string, base: nat, bitSize: nat): Result<nat, NumError>
    requires IsBase(base) && (bitSize == 32 || bitSize == 64)
  {
    if s == [] then Failure(ErrSyntax)
    else Accumulate(s, base, MaxValue(bitSize), MaxUint64 / base + 1, 0)
  }

  /**
   * The digit loop of ParseUint: `n` holds the value read so far. Before
   * multiplying, `n >= cutoff` means `n * base` would overflow uint64; the
   * addition of the digit then wraps modulo 2^64, which the `n1 < m` test catches.
   */
  function Accumulate(s: string, base: nat, maxVal: nat, cutoff: nat, n: nat): Result<nat, NumError>
    requires IsBase(base)
    decreases |s|
  {
    if s == [] then Success(n)
    else
      var d := DigitValue(s[0]);
      if d.None? || d.value >= base then Failure(ErrSyntax)
      else if n >= cutoff then Failure(ErrRange)
      else
        var m := n * base;
        var n1 := (m + d.value) % TwoTo64;
        if n1 < m || n1 > maxVal then Failure(ErrRange)
        else Accumulate(s[1..], base, maxVal, cutoff, n1)
  }

  /** The value of the digits `s` read after a prefix whose value is `n`. */
  function Horner(n: nat, s: string, base: nat): nat
    requires AllDigits(s, base)
    decreases |s|
  {
    if s == [] then n
    else Horner(n * base + DigitValue(s[0]).value, s[1..], base)
  }

  lemma {:induction false} HornerSnoc(n: nat, s: string, c: char, base: nat)
    requires AllDigits(s, base) && IsDigit(c, base)
    ensures AllDigits(s + [c], base)
    ensures Horner(n, s + [c], base) == Horner(n, s, base) * base + DigitValue(c).value
    decreases |s|
  {
    if s != [] {
      var t := s + [c];
      assert t[0] == s[0] && t[1..] == s[1..] + [c];
      var n1 := n * base + DigitValue(s[0]).value;
      AllDigitsFirst(s, base);
      HornerSnoc(n1, s[1..], c, base);
      AllDigitsFirst(t, base);
      assert Horner(n, t, base) == Horner(n1, t[1..], base);
    }
  }

  /** Reading front to back with an accumulator gives the value `Value` defines back to front. */
  lemma {:induction false} HornerIsValue(s: string, base: nat)
    requires AllDigits(s, base)
    ensures Horner(0, s, base) == Value(s, base)
    decreases |s|
  {
    if s != [] {
      var p, c := s[..|s| - 1], s[|s| - 1];
      assert s == p + [c];
      HornerIsValue(p, base);
      HornerSnoc(0, p, c, base);
    }
  }

  lemma {:induction false} HornerAtLeast(n: nat, s: string, base: nat)
    requires AllDigits(s, base) && base >= 1
    ensures Horner(n, s, base) >= n
    decreases |s|
  {
    if s != [] {
      MulNonNegative(n, base - 1);
      assert n * base == n + n * (base - 1);
      HornerAtLeast(n * base + DigitValue(s[0]).value, s[1..], base);
    }
  }

  /** The overflow tests of the digit loop reject exactly the values above `maxVal`. */
  lemma {:induction false} AccumulateCorrect(s: string, base: nat, maxVal: nat, n: nat)
    requires IsBase(base) && maxVal <= MaxUint64 && n <= maxVal
    ensures Accumulate(s, base, maxVal, MaxUint64 / base + 1, n).Success?
        <==> AllDigits(s, base) && Horner(n, s, base) <= maxVal
    ensures Accumulate(s, base, maxVal, MaxUint64 / base + 1, n).Success? && AllDigits(s, base)
        ==> Accumulate(s, base, maxVal, MaxUint64 / base + 1, n).value == Horner(n, s, base)
    ensures AllDigits(s, base) && Horner(n, s, base) > maxVal
        ==> Accumulate(s, base, maxVal, MaxUint64 / base + 1, n) == Failure(ErrRange)
    decreases |s|
  {
    if s != [] {
      var d := DigitValue(s[0]);
      AllDigitsFirst(s, base);
      if d.Some? && d.value < base {
        var n1 := n * base + d.value;
        AccumulateStep(s, base, maxVal, n);
        if n1 > maxVal {
          if AllDigits(s, base) {
            HornerExceeds(s, base, maxVal, n);
          }
        } else {
          AccumulateCorrect(s[1..], base, maxVal, n1);
          if AllDigits(s, base) {
            assert Horner(n, s, base) == Horner(n1, s[1..], base);
          }
        }
      }
    }
  }

  /** Once the accumulator passes `maxVal`, the value of the whole string does too. */
  lemma HornerExceeds(s: string, base: nat, maxVal: nat, n: nat)
    requires IsBase(base) && s != [] && AllDigits(s, base)
    requires n * base + DigitValue(s[0]).value > maxVal
    ensures Horner(n, s, base) > maxVal
  {
    var n1 := n * base + DigitValue(s[0]).value;
    AllDigitsFirst(s, base);
    HornerAtLeast(n1, s[1..], base);
  }

  /** A non-empty string is all digits iff its first character is a digit and the rest are. */
  lemma AllDigitsFirst(s: string, base: nat)
    requires s != []
    ensures AllDigits(s, base) <==> IsDigit(s[0], base) && AllDigits(s[1..], base)
  {
    if IsDigit(s[0], base) && AllDigits(s[1..], base) {
      forall i | 0 <= i < |s| ensures IsDigit(s[i], base) {
        if i > 0 { assert s[i] == s[1..][i - 1]; }
      }
    }
    if AllDigits(s, base) {
      forall i | 0 <= i < |s[1..]| ensures IsDigit(s[1..][i], base) {
        assert s[1..][i] == s[i + 1];
      }
    }
  }

  /**
   * One turn of the digit loop: with the cutoff and the wrap test together it
   * fails with ErrRange iff the new accumulator exceeds `maxVal`.
   */
  lemma AccumulateStep(s: string, base: nat, maxVal: nat, n: nat)
    requires IsBase(base) && maxVal <= MaxUint64 && s != []
    requires DigitValue(s[0]).Some? && DigitValue(s[0]).value < base
    ensures var n1 := n * base + DigitValue(s[0]).value;
      Accumulate(s, base, maxVal, MaxUint64 / base + 1, n)
        == if n1 > maxVal then Failure(ErrRange) else Accumulate(s[1..], base, maxVal, MaxUint64 / base + 1, n1)
  {
    var d := DigitValue(s[0]).value;
    var m := n * base;
    if n >= MaxUint64 / base + 1 {
      CutoffOverflow(n, base);
    } else {
      CutoffNoOverflow(n, base);
      if m + d >= TwoTo64 {
        assert (m + d) % TwoTo64 == m + d - TwoTo64;
      } else {
        assert (m + d) % TwoTo64 == m + d;
      }
    }
  }

  lemma CutoffOverflow(n: nat, base: nat)
    requires IsBase(base) && n >= MaxUint64 / base + 1
    ensures n * base > MaxUint64
  {
    var q := MaxUint64 / base;
    assert MaxUint64 == q * base + MaxUint64 % base;
    MulNonNegative(n - (q + 1), base);
    assert n * base == (n - (q + 1)) * base + q * base + base;
  }

  lemma CutoffNoOverflow(n: nat, base: nat)
    requires IsBase(base) && n < MaxUint64 / base + 1
    ensures n * base <= MaxUint64
  {
    var q := MaxUint64 / base;
    assert MaxUint64 == q * base + MaxUint64 % base;
    MulNonNegative(q - n, base);
    assert q * base == (q - n) * base + n * base;
  }

  /** ParseUint accepts exactly the non-empty digit strings whose value fits in `bitSize` bits. */
  lemma ParseUintCorrect(s: string, base: nat, bitSize: nat)
    requires IsBase(base) && (bitSize == 32 || bitSize == 64)
    ensures ParseUint(s, base, bitSize).Success?
        <==> s != [] && AllDigits(s, base) && Value(s, base) <= MaxValue(bitSize)
    ensures ParseUint(s, base, bitSize).Success? && AllDigits(s, base)
        ==> ParseUint(s, base, bitSize).value == Value(s, base)
    ensures s == [] ==> ParseUint(s, base, bitSize) == Failure(ErrSyntax)
    ensures AllDigits(s, base) && Value(s, base) > MaxValue(bitSize)
        ==> ParseUint(s, base, bitSize) == Failure(ErrRange)
  {
    if s != [] {
      AccumulateCorrect(s, base, MaxValue(bitSize), 0);
      if AllDigits(s, base) { HornerIsValue(s, base); }
    }
  }

  /** Parsing what FormatUint wrote gives the number back. */
  lemma ParseFormat(v: nat, base: nat, bitSize: nat)
    requires IsBase(base) && (bitSize == 32 || bitSize == 64) && v <= MaxValue(bitSize)
    ensures ParseUint(FormatUint(v, base), base, bitSize) == Success(v)
  {
    ParseUintCorrect(FormatUint(v, base), base, bitSize);
  }

  /** A canonical digit string is the one FormatUint writes for its value. */
  lemma {:induction false} CanonicalUnique(s: string, base: nat)
    requires IsBase(base) && Canonical(s, base)
    ensures FormatUint(Value(s, base), base) == s
    decreases |s|
  {
    if |s| == 1 {
      CanonicalSingle(s, base);
    } else {
      CanonicalPrefix(s, base);
      CanonicalUnique(s[..|s| - 1], base);
      CanonicalSnoc(s, base);
    }
  }

  /** A single lower-case digit is what FormatUint writes for its value. */
  lemma CanonicalSingle(s: string, base: nat)
    requires IsBase(base) && Canonical(s, base) && |s| == 1
    ensures FormatUint(Value(s, base), base) == s
  {
    var c := s[0];
    DigitCharInverse(c, base);
    var d := DigitValue(c).value;
    assert s[..0] == [];
    assert Value(s, base) == d < base;
    assert FormatUint(d, base) == [DigitChar(d)];
    assert s == [c];
  }

  /** If FormatUint gives back the prefix of a canonical string, it gives back the whole string. */
  lemma CanonicalSnoc(s: string, base: nat)
    requires IsBase(base) && Canonical(s, base) && |s| >= 2
    requires Canonical(s[..|s| - 1], base) && Value(s[..|s| - 1], base) > 0
    requires FormatUint(Value(s[..|s| - 1], base), base) == s[..|s| - 1]
    ensures FormatUint(Value(s, base), base) == s
  {
    var p, c := s[..|s| - 1], s[|s| - 1];
    DigitCharInverse(c, base);
    var d, w := DigitValue(c).value, Value(p, base);
    assert Value(s, base) == w * base + d;
    FormatUintSnoc(w, d, base);
    assert s == p + [c];
  }

  /** Dropping the last digit of a canonical string of two or more digits leaves a canonical string of a positive number. */
  lemma CanonicalPrefix(s: string, base: nat)
    requires IsBase(base) && Canonical(s, base) && |s| >= 2
    ensures Canonical(s[..|s| - 1], base) && Value(s[..|s| - 1], base) > 0
  {
    var p := s[..|s| - 1];
    AllDigitsPrefix(s, base);
    assert Canonical(p, base) by {
      assert p[0] == s[0];
      forall i | 0 <= i < |p| ensures !('A' <= p[i] <= 'Z') { assert p[i] == s[i]; }
    }
    assert p[0] == s[0];
    PositiveValue(p, base);
  }

  /** For a positive `w`, the digits of `w * base + d` are those of `w` followed by `d`. */
  lemma FormatUintSnoc(w: nat, d: nat, base: nat)
    requires IsBase(base) && w > 0 && d < base
    ensures FormatUint(w * base + d, base) == FormatUint(w, base) + [DigitChar(d)]
  {
    LastDigitSplit(w, d, base);
  }

  lemma LastDigitSplit(w: nat, d: nat, base: nat)
    requires IsBase(base) && w > 0 && d < base
    ensures w * base + d >= base
    ensures (w * base + d) / base == w && (w * base + d) % base == d
  {
    DivModOfSum(w, d, base);
    MulNonNegative(w - 1, base);
    assert w * base == (w - 1) * base + base;
  }

  lemma DigitCharInverse(c: char, base: nat)
    requires IsBase(base) && IsDigit(c, base) && !('A' <= c <= 'Z')
    ensures DigitChar(DigitValue(c).value) == c
  {
  }

  /** A canonical string of two or more digits denotes a positive number. */
  lemma PositiveValue(s: string, base: nat)
    requires IsBase(base) && Canonical(s, base)
    ensures s[0] != '0' ==> Value(s, base) > 0
  {
    if s[0] != '0' {
      assert DigitValue(s[0]).value > 0;
      LeadingDigitValue(s, base);
    }
  }

  lemma {:induction false} LeadingDigitValue(s: string, base: nat)
    requires IsBase(base) && s != [] && AllDigits(s, base) && DigitValue(s[0]).value > 0
    ensures Value(s, base) > 0
    decreases |s|
  {
    if |s| > 1 {
      var p := s[..|s| - 1];
      AllDigitsPrefix(s, base);
      assert p[0] == s[0];
      LeadingDigitValue(p, base);
      var w, d := Value(p, base), DigitValue(s[|s| - 1]).value;
      assert Value(s, base) == w * base + d;
      PositiveStep(w, d, base);
    }
  }

  lemma PositiveStep(w: nat, d: nat, base: nat)
    requires w > 0 && base > 0
    ensures w * base + d > 0
  {
    MulNonNegative(w - 1, base);
    assert w * base == (w - 1) * base + base;
  }

  /** Dropping the last character of a digit string leaves a digit string. */
  lemma AllDigitsPrefix(s: string, base: nat)
    requires s != [] && AllDigits(s, base)
    ensures AllDigits(s[..|s| - 1], base)
  {
    var p := s[..|s| - 1];
    forall i | 0 <= i < |p| ensures IsDigit(p[i], base) { assert p[i] == s[i]; }
  }
}
