/**
 * reqid.go: DecodeReqid reads the process id and the creation time out of a
 * request id. The id is the URL-safe base64 spelling of twelve bytes: a
 * little-endian uint32 pid, then a little-endian int64 count of nanoseconds
 * since the Unix epoch.
 */
module Reqid {
  import opened Wrappers
  import opened GoInt
  import opened Arith
  import Base64

  const NanosPerSecond: int := 1_000_000_000

  /** errInvalidArgs with the message errors.WithMessage attaches to it. */
  datatype ReqidError = InvalidArgs(message: string)

  const Base64DecodeFailed: ReqidError := InvalidArgs("base64 decode failed")
  const WrongLength: ReqidError := InvalidArgs("len(b) != 12")

  /** A time.Time: the zero Time, or an instant given as seconds and nanoseconds since the epoch. */
  datatype Time = ZeroTime | Instant(sec: int, nsec: int)

  /** The three results of DecodeReqid; pid and t keep their zero values on error. */
  datatype Decoded = Decoded(pid: nat, t: Time, err: Option<ReqidError>)

  /** The unsigned number whose little-endian bytes are `b`. */
  function LittleEndian(b: seq<byte>): nat {
    if b == [] then 0 else b[0] + 0x100 * LittleEndian(b[1..])
  }

  /** binary.LittleEndian.Uint32. */
  function Uint32(b: seq<byte>): (r: nat)
    requires |b| == 4
    ensures r == b[0] as int + 0x100 * (b[1] as int) + 0x1_0000 * (b[2] as int) + 0x100_0000 * (b[3] as int)
    ensures r < TwoTo32
  {
    var b1, b2, b3 := b[1..], b[2..], b[3..];
    assert b1[1..] == b2 && b2[1..] == b3 && b3[1..] == [];
    assert LittleEndian(b3) == b[3] as int;
    assert LittleEndian(b2) == b[2] as int + 0x100 * (b[3] as int);
    assert LittleEndian(b1) == b[1] as int + 0x100 * (b[2] as int) + 0x1_0000 * (b[3] as int);
    LittleEndian(b)
  }

  /** binary.LittleEndian.Uint64. */
  function Uint64(b: seq<byte>): (r: nat)
    requires |b| == 8
    ensures r < TwoTo64
  {
    LittleEndianBound(b);
    LittleEndian(b)
  }

  function Pow256(k: nat): (p: nat)
    ensures p >= 1
  {
    if k == 0 then 1 else 0x100 * Pow256(k - 1)
  }

  /** The weights of four and eight bytes are 2^32 and 2^64. */
  lemma Pow256Widths()
    ensures Pow256(4) == TwoTo32 && Pow256(7) == 0x100_0000_0000_0000 && Pow256(8) == TwoTo64
  {
    assert Pow256(2) == 0x1_0000 by {
      assert Pow256(1) == 0x100;
    }
    assert Pow256(4) == TwoTo32 by {
      assert Pow256(3) == 0x100_0000;
    }
    assert Pow256(6) == 0x1_0000_0000_0000 by {
      assert Pow256(5) == 0x100_0000_0000;
    }
    assert Pow256(7) == 0x100_0000_0000_0000;
  }

  lemma {:induction false} LittleEndianBound(b: seq<byte>)
    ensures LittleEndian(b) < Pow256(|b|)
    decreases |b|
  {
    if b != [] {
      LittleEndianBound(b[1..]);
    }
  }

  /**
   * time.Unix(sec, nsec): a nanosecond count outside [0, 1e9) is carried
   * into the seconds, so the result always has 0 <= nsec < 1e9.
   */
  function Unix(sec: int, nsec: int): (t: Time)
    ensures t.Instant? && 0 <= t.nsec < NanosPerSecond
    ensures t.sec * NanosPerSecond + t.nsec == sec * NanosPerSecond + nsec
  {
    if nsec < 0 || nsec >= NanosPerSecond then
      var n := Quo(nsec, NanosPerSecond);
      var s, ns := sec + n, nsec - n * NanosPerSecond;
      if ns < 0 then Instant(s - 1, ns + NanosPerSecond) else Instant(s, ns)
    else Instant(sec, nsec)
  }

  /** DecodeReqid. */
  function DecodeReqid(reqid: string): (r: Decoded)
    ensures Base64.DecodeString(reqid).Failure? ==> r == Decoded(0, ZeroTime, Some(Base64DecodeFailed))
    ensures Base64.DecodeString(reqid).Success? && |Base64.DecodeString(reqid).value| != 12
      ==> r == Decoded(0, ZeroTime, Some(WrongLength))
    ensures r.err.None? ==> r.pid < TwoTo32 && r.t.Instant? && 0 <= r.t.nsec < NanosPerSecond
  {
    match Base64.DecodeString(reqid)
    case Failure(_) => Decoded(0, ZeroTime, Some(Base64DecodeFailed))
    case Success(b) =>
      if |b| != 12 then Decoded(0, ZeroTime, Some(WrongLength))
      else
        var pid := Uint32(b[..4]);
        var unixNano := Int64(Uint64(b[4..]));
        Decoded(pid, Unix(Quo(unixNano, NanosPerSecond), Rem(unixNano, NanosPerSecond)), None)
  }

  /** A successful decode reads the fields at their offsets, and the time is the signed nanosecond count. */
  lemma DecodeReqidFields(reqid: string)
    requires Base64.DecodeString(reqid).Success? && |Base64.DecodeString(reqid).value| == 12
    ensures var b := Base64.DecodeString(reqid).value;
      var r := DecodeReqid(reqid);
      var unixNano := Int64(Uint64(b[4..]));
      && r.err == None
      && r.pid == b[0] as int + 0x100 * (b[1] as int) + 0x1_0000 * (b[2] as int) + 0x100_0000 * (b[3] as int)
      && IsInt64(unixNano)
      && (unixNano >= 0 <==> b[11] < 0x80)
      && r.t.Instant? && r.t.sec * NanosPerSecond + r.t.nsec == unixNano
      && r.t == Instant(unixNano / NanosPerSecond, unixNano % NanosPerSecond)
  {
    var b := Base64.DecodeString(reqid).value;
    var unixNano := Int64(Uint64(b[4..]));
    var q, m := Quo(unixNano, NanosPerSecond), Rem(unixNano, NanosPerSecond);
    TopByteSign(b[4..]);
    var t := Unix(q, m);
    assert t.sec * NanosPerSecond + t.nsec == unixNano;
    EuclideanUnique(unixNano, t.sec, t.nsec);
  }

  /** The seconds and nanoseconds with `0 <= nsec < 1e9` are floor division and remainder. */
  lemma EuclideanUnique(n: int, sec: int, nsec: int)
    requires 0 <= nsec < NanosPerSecond && sec * NanosPerSecond + nsec == n
    ensures sec == n / NanosPerSecond && nsec == n % NanosPerSecond
  {
    var q, r := n / NanosPerSecond, n % NanosPerSecond;
    assert q * NanosPerSecond + r == n;
    if sec != q {
      assert (sec - q) * NanosPerSecond == r - nsec;
      MulAtLeast(sec - q, NanosPerSecond);
    }
  }

  /** An eight-byte little-endian number is below 2^63 exactly when its last byte is below 0x80. */
  lemma TopByteSign(b: seq<byte>)
    requires |b| == 8
    ensures Uint64(b) < TwoTo63 <==> b[7] < 0x80
  {
    var low := b[..7];
    LittleEndianBound(low);
    LittleEndianSplit(b, 7);
    Pow256Widths();
    assert b[7..] == [b[7]];
    assert LittleEndian(b[7..]) == b[7] + 0x100 * LittleEndian([]);
  }

  lemma {:induction false} LittleEndianSplit(b: seq<byte>, k: nat)
    requires k <= |b|
    ensures LittleEndian(b) == LittleEndian(b[..k]) + Pow256(k) * LittleEndian(b[k..])
    decreases k
  {
    if k > 0 {
      var t := b[1..];
      LittleEndianSplit(t, k - 1);
      assert t[..k - 1] == b[..k][1..];
      assert t[k - 1..] == b[k..];
      ShiftSum(b[0] as int, LittleEndian(t), LittleEndian(b[..k][1..]), Pow256(k - 1), LittleEndian(b[k..]));
    }
  }

  /** Prepending one byte to a split value adds it to the low part and shifts the high part's weight. */
  lemma ShiftSum(x: int, whole: int, lo: int, p: int, hi: int)
    requires whole == lo + p * hi
    ensures x + 0x100 * whole == (x + 0x100 * lo) + (0x100 * p) * hi
  {
  }

  // The encoder the request ids come from, as the partner of the decoder.

  /** The `k` little-endian bytes of `n`. */
  function ToLittleEndian(n: nat, k: nat): (b: seq<byte>)
    requires n < Pow256(k)
    ensures |b| == k && LittleEndian(b) == n
    decreases k
  {
    if k == 0 then []
    else
      var rest := ToLittleEndian(n / 0x100, k - 1);
      var b := [n % 0x100] + rest;
      assert b[1..] == rest;
      b
  }

  /** A request id for `pid` and a signed nanosecond timestamp. */
  function EncodeReqid(pid: nat, unixNano: int): (reqid: string)
    requires pid < TwoTo32 && IsInt64(unixNano)
    ensures |reqid| == 16
  {
    Pow256Widths();
    Base64.EncodeToString(ToLittleEndian(pid, 4) + ToLittleEndian(GoInt.Uint64(unixNano), 8))
  }

  /** Decoding an encoded request id gives back the pid and the instant, to the nanosecond. */
  lemma DecodeEncode(pid: nat, unixNano: int)
    requires pid < TwoTo32 && IsInt64(unixNano)
    ensures var r := DecodeReqid(EncodeReqid(pid, unixNano));
      && r.err == None && r.pid == pid
      && r.t == Instant(unixNano / NanosPerSecond, unixNano % NanosPerSecond)
  {
    Pow256Widths();
    var p, n := ToLittleEndian(pid, 4), ToLittleEndian(GoInt.Uint64(unixNano), 8);
    var b := p + n;
    Base64.RoundTrip(b);
    assert b[..4] == p && b[4..] == n;
    DecodeReqidFields(EncodeReqid(pid, unixNano));
  }
}
