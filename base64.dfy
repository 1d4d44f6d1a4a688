/**
 * Go's base64.URLEncoding (section 5 of RFC 4648: the URL- and file-name-safe
 * alphabet, with '=' padding), as reqid.go uses it through DecodeString.
 * Go's decoder is not strict: it skips carriage returns and line feeds
 * anywhere in the input and ignores the unused low bits of a padded final
 * group. The encoder is the partner the round-trip lemma is stated against.
 */
module Base64 {
  import opened Wrappers
  import opened Arith
  import opened GoInt

  type sextet = x: int | 0 <= x < 64

  /** The only failure DecodeString reports that matters here: malformed input. */
  datatype DecodeError = CorruptInput

  /** The value of `c` in the URL-safe alphabet A-Z a-z 0-9 - _. */
  function SextetOf(c: char): (r: Option<sextet>)
    ensures r.Some? ==> c != '=' && c != '\r' && c != '\n'
  {
    if 'A' <= c <= 'Z' then Some(c as int - 'A' as int)
    else if 'a' <= c <= 'z' then Some(c as int - 'a' as int + 26)
    else if '0' <= c <= '9' then Some(c as int - '0' as int + 52)
    else if c == '-' then Some(62)
    else if c == '_' then Some(63)
    else None
  }

  /** The letter of the URL-safe alphabet for `d`. */
  function CharOf(d: sextet): (c: char)
    ensures SextetOf(c) == Some(d)
  {
    if d < 26 then ('A' as int + d) as char
    else if d < 52 then ('a' as int + d - 26) as char
    else if d < 62 then ('0' as int + d - 52) as char
    else if d == 62 then '-'
    else '_'
  }

  function StripNewlines(s: string): (r: string)
    ensures forall i :: 0 <= i < |r| ==> r[i] != '\r' && r[i] != '\n'
    ensures (forall i :: 0 <= i < |s| ==> s[i] != '\r' && s[i] != '\n') ==> r == s
  {
    if s == [] then []
    else if s[|s| - 1] == '\r' || s[|s| - 1] == '\n' then StripNewlines(s[..|s| - 1])
    else StripNewlines(s[..|s| - 1]) + [s[|s| - 1]]
  }

  /** The bytes of a full group of four letters (24 bits). */
  function Bytes3(a: sextet, b: sextet, c: sextet, d: sextet): seq<byte> {
    var v: int := a * 0x40000 + b * 0x1000 + c * 0x40 + d;
    [v / 0x10000, (v / 0x100) % 0x100, v % 0x100]
  }

  /** The bytes of a group "abc=": the top 16 of its 18 bits. */
  function Bytes2(a: sextet, b: sextet, c: sextet): seq<byte> {
    var v: int := a * 0x40000 + b * 0x1000 + c * 0x40;
    [v / 0x10000, (v / 0x100) % 0x100]
  }

  /** The byte of a group "ab==": the top 8 of its 12 bits. */
  function Bytes1(a: sextet, b: sextet): seq<byte> {
    var v: int := a * 0x40000 + b * 0x1000;
    [v / 0x10000]
  }

  /** base64.URLEncoding.DecodeString. */
  function DecodeString(s: string): (r: Result<seq<byte>, DecodeError>)
    ensures r.Success? <==> WellFormed(StripNewlines(s))
    ensures r.Success? ==> |StripNewlines(s)| % 4 == 0 && (|r.value| + 2) / 3 == |StripNewlines(s)| / 4
  {
    DecodeGroupsAccepts(StripNewlines(s));
    DecodeGroups(StripNewlines(s))
  }

  /**
   * The group loop once line breaks are gone: every group has four letters;
   * only the last may end in "==" or "=", and nothing may follow padding.
   */
  function DecodeGroups(s: string): (r: Result<seq<byte>, DecodeError>)
    ensures r.Success? ==> |s| % 4 == 0 && (|r.value| + 2) / 3 == |s| / 4
    decreases |s|
  {
    if s == [] then Success([])
    else if |s| < 4 then Failure(CorruptInput)
    else
      var a, b, c, d := SextetOf(s[0]), SextetOf(s[1]), SextetOf(s[2]), SextetOf(s[3]);
      if a.None? || b.None? then Failure(CorruptInput)
      else if s[2] == '=' then
        if s[3] == '=' && |s| == 4 then Success(Bytes1(a.value, b.value)) else Failure(CorruptInput)
      else if c.None? then Failure(CorruptInput)
      else if s[3] == '=' then
        if |s| == 4 then Success(Bytes2(a.value, b.value, c.value)) else Failure(CorruptInput)
      else if d.None? then Failure(CorruptInput)
      else
        GroupCountStep4(|s|);
        match DecodeGroups(s[4..])
        case Failure(e) => Failure(e)
        case Success(rest) => Success(Bytes3(a.value, b.value, c.value, d.value) + rest)
  }

  lemma GroupCountStep4(n: nat)
    requires n >= 4
    ensures n % 4 == (n - 4) % 4 && n / 4 == (n - 4) / 4 + 1
  {
  }

  /** A letter of the URL-safe alphabet. */
  predicate IsLetter(c: char) {
    SextetOf(c).Some?
  }

  /**
   * The inputs the decoder accepts, stated on the whole string: a whole
   * number of four-character groups, every character a letter, except that
   * the last group may end in "=" or "==".
   */
  predicate WellFormed(s: string) {
    |s| % 4 == 0 &&
    forall i :: 0 <= i < |s| ==>
      IsLetter(s[i]) || (s[i] == '=' && (i == |s| - 1 || (i == |s| - 2 && s[|s| - 1] == '=')))
  }

  /** DecodeGroups succeeds exactly on the well-formed strings. */
  lemma {:induction false} DecodeGroupsAccepts(s: string)
    ensures DecodeGroups(s).Success? <==> WellFormed(s)
    decreases |s|
  {
    if |s| == 4 {
      WellFormedLast(s);
    } else if |s| > 4 {
      WellFormedFirst(s);
      DecodeGroupsAccepts(s[4..]);
    }
  }

  /** A single group: letters, then "=" or "==" at most at its end. */
  lemma WellFormedLast(s: string)
    requires |s| == 4
    ensures WellFormed(s) <==>
      IsLetter(s[0]) && IsLetter(s[1]) && (IsLetter(s[2]) || (s[2] == '=' && s[3] == '=')) &&
      (IsLetter(s[3]) || s[3] == '=')
  {
    if WellFormed(s) {
      assert IsLetter(s[0]);
      assert IsLetter(s[1]);
    }
  }

  /** Before the last group, every character must be a letter. */
  lemma WellFormedFirst(s: string)
    requires |s| > 4
    ensures WellFormed(s) <==>
      IsLetter(s[0]) && IsLetter(s[1]) && IsLetter(s[2]) && IsLetter(s[3]) && WellFormed(s[4..])
  {
    var t := s[4..];
    if WellFormed(s) {
      assert |s| >= 8;
      assert IsLetter(s[0]);
      assert IsLetter(s[1]);
      assert IsLetter(s[2]);
      assert IsLetter(s[3]);
      forall j | 0 <= j < |t|
        ensures IsLetter(t[j]) || (t[j] == '=' && (j == |t| - 1 || (j == |t| - 2 && t[|t| - 1] == '=')))
      {
        assert t[j] == s[j + 4];
      }
    }
    if IsLetter(s[0]) && IsLetter(s[1]) && IsLetter(s[2]) && IsLetter(s[3]) && WellFormed(t) {
      forall i | 0 <= i < |s|
        ensures IsLetter(s[i]) || (s[i] == '=' && (i == |s| - 1 || (i == |s| - 2 && s[|s| - 1] == '=')))
      {
        if i >= 4 {
          assert s[i] == t[i - 4];
        }
      }
    }
  }

  /**
   * The decoder is not strict: the unused low bits of a padded group are
   * ignored, so "QR==" is read as the same byte as its canonical spelling
   * "QQ==".
   */
  lemma PaddingBitsIgnored()
    ensures DecodeString("QR==") == DecodeString("QQ==") == Success([65])
    ensures EncodeToString([65]) == "QQ=="
  {
    assert DecodeString("QR==") == Success([65]) by {
      assert StripNewlines("QR==") == "QR==";
      assert SextetOf('Q') == Some(16) && SextetOf('R') == Some(17);
      assert Bytes1(16, 17) == [65];
    }
    assert DecodeString("QQ==") == Success([65]) by {
      assert StripNewlines("QQ==") == "QQ==";
      assert SextetOf('Q') == Some(16);
      assert (16 * 0x40000 + 16 * 0x1000) / 0x10000 == 65;
      assert Bytes1(16, 16) == [65];
    }
    assert EncodeToString([65]) == "QQ==" by {
      assert 0x410000 / 0x40000 == 16 && (0x410000 / 0x1000) % 0x40 == 16;
      assert Letters1(65) == [CharOf(16), CharOf(16), '=', '='];
      assert CharOf(16) == 'Q';
    }
  }

  /** base64.URLEncoding.EncodeToString: groups of three bytes, '=' padding at the end. */
  function EncodeToString(bytes: seq<byte>): (s: string)
    ensures |s| == 4 * ((|bytes| + 2) / 3)
    ensures forall i :: 0 <= i < |s| ==> s[i] != '\r' && s[i] != '\n'
    decreases |bytes|
  {
    if bytes == [] then []
    else if |bytes| == 1 then Letters1(bytes[0])
    else if |bytes| == 2 then Letters2(bytes[0], bytes[1])
    else
      var rest := EncodeToString(bytes[3..]);
      GroupCountStep(|bytes|);
      Letters3(bytes[0], bytes[1], bytes[2]) + rest
  }

  /** Three more bytes make one more group. */
  lemma GroupCountStep(n: nat)
    requires n >= 3
    ensures (n + 2) / 3 == (n - 3 + 2) / 3 + 1
  {
  }

  /** The 24 bits of three bytes as four letters. */
  function Letters3(x: byte, y: byte, z: byte): (s: string)
    ensures |s| == 4 && forall i :: 0 <= i < 4 ==> SextetOf(s[i]).Some?
  {
    var v: int := (x as int) * 0x10000 + (y as int) * 0x100 + z;
    [CharOf(v / 0x40000), CharOf((v / 0x1000) % 0x40), CharOf((v / 0x40) % 0x40), CharOf(v % 0x40)]
  }

  /** Two bytes as three letters and one '='. */
  function Letters2(x: byte, y: byte): (s: string)
    ensures |s| == 4 && s[3] == '=' && forall i :: 0 <= i < 3 ==> SextetOf(s[i]).Some?
  {
    var v: int := (x as int) * 0x10000 + (y as int) * 0x100;
    [CharOf(v / 0x40000), CharOf((v / 0x1000) % 0x40), CharOf((v / 0x40) % 0x40), '=']
  }

  /** One byte as two letters and "==". */
  function Letters1(x: byte): (s: string)
    ensures |s| == 4 && s[2] == '=' && s[3] == '=' && forall i :: 0 <= i < 2 ==> SextetOf(s[i]).Some?
  {
    var v: int := (x as int) * 0x10000;
    [CharOf(v / 0x40000), CharOf((v / 0x1000) % 0x40), '=', '=']
  }

  lemma Group3RoundTrip(x: byte, y: byte, z: byte)
    ensures var s := Letters3(x, y, z);
      Bytes3(SextetOf(s[0]).value, SextetOf(s[1]).value, SextetOf(s[2]).value, SextetOf(s[3]).value) == [x, y, z]
  {
    var v: int := (x as int) * 0x10000 + (y as int) * 0x100 + z;
    var a, b, c, d := Split3(x, y, z);
    var s := Letters3(x, y, z);
    assert SextetOf(s[0]).value == a && SextetOf(s[1]).value == b;
    assert SextetOf(s[2]).value == c && SextetOf(s[3]).value == d;
    DivModOfSum(x, y * 0x100 + z, 0x10000);
    DivModOfSum(x * 0x100 + y, z, 0x100);
    DivModOfSum(x, y, 0x100);
  }

  /** The four six-bit fields of three bytes, as the encoder computes them. */
  lemma Split3(x: byte, y: byte, z: byte) returns (a: sextet, b: sextet, c: sextet, d: sextet)
    ensures var v: int := (x as int) * 0x10000 + (y as int) * 0x100 + z;
      && a == v / 0x40000 && b == (v / 0x1000) % 0x40 && c == (v / 0x40) % 0x40 && d == v % 0x40
      && v == a * 0x40000 + b * 0x1000 + c * 0x40 + d
  {
    var v: int := (x as int) * 0x10000 + (y as int) * 0x100 + z;
    a, b, c, d := x / 4, (x % 4) * 16 + y / 16, (y % 16) * 4 + z / 64, z % 64;
    assert v == a * 0x40000 + b * 0x1000 + c * 0x40 + d;
    DivModOfSum(a, b * 0x1000 + c * 0x40 + d, 0x40000);
    DivModOfSum(a * 0x40 + b, c * 0x40 + d, 0x1000);
    DivModOfSum(a, b, 0x40);
    DivModOfSum(a * 0x1000 + b * 0x40 + c, d, 0x40);
    DivModOfSum(a * 0x40 + b, c, 0x40);
  }

  lemma Group2RoundTrip(x: byte, y: byte)
    ensures var s := Letters2(x, y);
      Bytes2(SextetOf(s[0]).value, SextetOf(s[1]).value, SextetOf(s[2]).value) == [x, y]
  {
    var a, b, c := Split2(x, y);
    var s := Letters2(x, y);
    assert SextetOf(s[0]).value == a && SextetOf(s[1]).value == b && SextetOf(s[2]).value == c;
    DivModOfSum(x, y * 0x100, 0x10000);
    DivModOfSum(x * 0x100 + y, 0, 0x100);
    DivModOfSum(x, y, 0x100);
  }

  /** The three six-bit fields of two bytes, as the encoder computes them. */
  lemma Split2(x: byte, y: byte) returns (a: sextet, b: sextet, c: sextet)
    ensures var v: int := (x as int) * 0x10000 + (y as int) * 0x100;
      && a == v / 0x40000 && b == (v / 0x1000) % 0x40 && c == (v / 0x40) % 0x40
      && v == a * 0x40000 + b * 0x1000 + c * 0x40
  {
    var v: int := (x as int) * 0x10000 + (y as int) * 0x100;
    a, b, c := x / 4, (x % 4) * 16 + y / 16, (y % 16) * 4;
    assert v == a * 0x40000 + b * 0x1000 + c * 0x40;
    DivModOfSum(a, b * 0x1000 + c * 0x40, 0x40000);
    DivModOfSum(a * 0x40 + b, c * 0x40, 0x1000);
    DivModOfSum(a, b, 0x40);
    DivModOfSum(a * 0x1000 + b * 0x40 + c, 0, 0x40);
    DivModOfSum(a * 0x40 + b, c, 0x40);
  }

  lemma Group1RoundTrip(x: byte)
    ensures var s := Letters1(x);
      Bytes1(SextetOf(s[0]).value, SextetOf(s[1]).value) == [x]
  {
    var a, b := Split1(x);
    var s := Letters1(x);
    assert SextetOf(s[0]).value == a && SextetOf(s[1]).value == b;
    DivModOfSum(x, 0, 0x10000);
  }

  /** The two six-bit fields of one byte, as the encoder computes them. */
  lemma Split1(x: byte) returns (a: sextet, b: sextet)
    ensures var v: int := (x as int) * 0x10000;
      && a == v / 0x40000 && b == (v / 0x1000) % 0x40
      && v == a * 0x40000 + b * 0x1000
  {
    var v: int := (x as int) * 0x10000;
    a, b := x / 4, (x % 4) * 16;
    assert v == a * 0x40000 + b * 0x1000;
    DivModOfSum(a, b * 0x1000, 0x40000);
    DivModOfSum(a * 0x40 + b, 0, 0x1000);
    DivModOfSum(a, b, 0x40);
  }

  /** Decoding what the encoder wrote gives the bytes back. */
  lemma RoundTrip(bytes: seq<byte>)
    ensures DecodeString(EncodeToString(bytes)) == Success(bytes)
  {
    GroupsRoundTrip(bytes);
  }

  lemma {:induction false} GroupsRoundTrip(bytes: seq<byte>)
    ensures DecodeGroups(EncodeToString(bytes)) == Success(bytes)
    decreases |bytes|
  {
    if |bytes| == 1 {
      Group1RoundTrip(bytes[0]);
      assert bytes == [bytes[0]];
    } else if |bytes| == 2 {
      Group2RoundTrip(bytes[0], bytes[1]);
      assert bytes == [bytes[0], bytes[1]];
    } else if |bytes| >= 3 {
      GroupsRoundTrip(bytes[3..]);
      FullGroupRoundTrip(bytes);
    }
  }

  /** A group of four letters followed by groups that decode to `tail` decodes to its three bytes and `tail`. */
  lemma DecodeFullGroup(g: string, rest: string, tail: seq<byte>)
    requires |g| == 4 && forall i :: 0 <= i < 4 ==> SextetOf(g[i]).Some?
    requires DecodeGroups(rest) == Success(tail)
    ensures DecodeGroups(g + rest)
      == Success(Bytes3(SextetOf(g[0]).value, SextetOf(g[1]).value, SextetOf(g[2]).value, SextetOf(g[3]).value) + tail)
  {
    var s := g + rest;
    assert s[4..] == rest;
    assert s[0] == g[0] && s[1] == g[1] && s[2] == g[2] && s[3] == g[3];
  }

  /** The encoding of three or more bytes starts with the letters of the first three. */
  lemma EncodeFirstGroup(bytes: seq<byte>)
    requires |bytes| >= 3
    ensures EncodeToString(bytes) == Letters3(bytes[0], bytes[1], bytes[2]) + EncodeToString(bytes[3..])
  {
  }

  /** The letters of three bytes, followed by groups that decode to `tail`, decode to those bytes and `tail`. */
  lemma DecodeLetters3(x: byte, y: byte, z: byte, rest: string, tail: seq<byte>)
    requires DecodeGroups(rest) == Success(tail)
    ensures DecodeGroups(Letters3(x, y, z) + rest) == Success([x, y, z] + tail)
  {
    DecodeFullGroup(Letters3(x, y, z), rest, tail);
    Group3RoundTrip(x, y, z);
  }

  lemma FullGroupRoundTrip(bytes: seq<byte>)
    requires |bytes| >= 3
    requires DecodeGroups(EncodeToString(bytes[3..])) == Success(bytes[3..])
    ensures DecodeGroups(EncodeToString(bytes)) == Success(bytes)
  {
    var x, y, z, tail := bytes[0], bytes[1], bytes[2], bytes[3..];
    SplitFirst3(bytes);
    EncodeFirstGroup(bytes);
    DecodeLetters3(x, y, z, EncodeToString(tail), tail);
  }

  lemma SplitFirst3<T>(s: seq<T>)
    requires |s| >= 3
    ensures s == [s[0], s[1], s[2]] + s[3..]
  {
  }
}
