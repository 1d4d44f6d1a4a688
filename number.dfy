/**
 * number.go: conversion of an id between its decimal and its base-36
 * spelling. Each direction parses with strconv.ParseUint and formats the
 * result, after a conversion to int64, with strconv.FormatInt. The logger
 * argument only records the error and is left out.
 */
module Number {
  import opened Wrappers
  import opened GoInt
  import opened Strconv

  /** The two results of a conversion: the string (empty on failure) and the error. */
  datatype Converted = Converted(str: string, err: Option<NumError>)

  /** ConvertTo36: a decimal string of at most 32 bits, rewritten in base 36. */
  function ConvertTo36(str10: string): (r: Converted)
    ensures r.err.Some? <==> !(str10 != [] && AllDigits(str10, 10) && Value(str10, 10) <= MaxUint32)
    ensures r.err.Some? ==> r.str == ""
    ensures str10 == [] ==> r.err == Some(ErrSyntax)
    ensures AllDigits(str10, 10) && Value(str10, 10) > MaxUint32 ==> r.err == Some(ErrRange)
    ensures r.err.None? ==> AllDigits(str10, 10) && Canonical(r.str, 36) && Value(r.str, 36) == Value(str10, 10)
  {
    ParseUintCorrect(str10, 10, 32);
    match ParseUint(str10, 10, 32)
    case Failure(e) => Converted("", Some(e))
    case Success(v) => Converted(FormatInt(Int64(v), 36), None)
  }

  /**
   * ConvertTo10: a base-36 string of at most 64 bits, rewritten in decimal.
   * The value passes through int64, so values from 2^63 on come out negative.
   */
  function ConvertTo10(str36: string): (r: Converted)
    ensures r.err.Some? <==> !(str36 != [] && AllDigits(str36, 36) && Value(str36, 36) <= MaxUint64)
    ensures r.err.Some? ==> r.str == ""
    ensures str36 == [] ==> r.err == Some(ErrSyntax)
    ensures AllDigits(str36, 36) && Value(str36, 36) > MaxUint64 ==> r.err == Some(ErrRange)
    ensures r.err.None? && Value36Below(str36, TwoTo63) ==>
      Canonical(r.str, 10) && Value(r.str, 10) == Value(str36, 36)
    ensures r.err.None? && !Value36Below(str36, TwoTo63) ==>
      |r.str| > 1 && r.str[0] == '-' && Canonical(r.str[1..], 10) && Value(r.str[1..], 10) == TwoTo64 - Value(str36, 36)
  {
    ParseUintCorrect(str36, 36, 64);
    match ParseUint(str36, 36, 64)
    case Failure(e) => Converted("", Some(e))
    case Success(v) => Converted(FormatInt(Int64(v), 10), None)
  }

  /** `s` is a base-36 digit string whose value is below `bound`. */
  predicate Value36Below(s: string, bound: int) {
    AllDigits(s, 36) && Value(s, 36) < bound
  }

  /** Every id ConvertTo36 accepts comes back from ConvertTo10 as its canonical decimal. */
  lemma RoundTrip36(str10: string)
    requires ConvertTo36(str10).err.None?
    ensures AllDigits(str10, 10)
    ensures ConvertTo10(ConvertTo36(str10).str) == Converted(FormatUint(Value(str10, 10), 10), None)
  {
    var v := Value(str10, 10);
    var s36 := ConvertTo36(str10).str;
    CanonicalUnique(s36, 36);
    ParseFormat(v, 36, 64);
  }

  /** A decimal id without leading zeros survives the round trip unchanged. */
  lemma RoundTrip36Canonical(str10: string)
    requires Canonical(str10, 10) && Value(str10, 10) <= MaxUint32
    ensures ConvertTo10(ConvertTo36(str10).str) == Converted(str10, None)
  {
    RoundTrip36(str10);
    CanonicalUnique(str10, 10);
  }

  /** A canonical base-36 id of at most 32 bits survives the opposite round trip unchanged. */
  lemma RoundTrip10Canonical(str36: string)
    requires Canonical(str36, 36) && Value(str36, 36) <= MaxUint32
    ensures ConvertTo36(ConvertTo10(str36).str) == Converted(str36, None)
  {
    var v := Value(str36, 36);
    var s10 := ConvertTo10(str36).str;
    CanonicalUnique(s10, 10);
    ParseFormat(v, 10, 32);
    CanonicalUnique(str36, 36);
  }
}
