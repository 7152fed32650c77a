/**
 * The context hasher: `get_port_from_hash_key` turns an arbitrary string into a
 * preferred port in [33000, 57999] by hashing its UTF-8 bytes with SHA-1,
 * reading the hexadecimal digest as an unsigned integer and reducing it.
 *
 * SHA-1 (section 6.1 of FIPS 180-4) and UTF-8 encoding are foreign calls; they
 * enter as function parameters. The hexadecimal rendering of the digest and its
 * parsing back with base 16 are modelled, so the reduction works on exactly the
 * number the source computes.
 */
module PortHash {
  import opened Wrappers

  type Byte = b: int | 0 <= b < 256

  /** A SHA-1 digest: always 20 bytes, so 160 bits. */
  type Digest = d: seq<Byte> | |d| == 20 witness [0, 0, 0, 0, 0, 0, 0, 0, 0, 0, 0, 0, 0, 0, 0, 0, 0, 0, 0, 0]

  /** The offset and the width of the range the hash is reduced into. */
  const PORT_BASE: nat := 33000
  const PORT_SPAN: nat := 25000

  /** 2^160: every SHA-1 digest, read as an integer, lies below it. */
  const DIGEST_LIMIT: nat := 0x1_0000_0000_0000_0000_0000_0000_0000_0000_0000_0000

  function Pow256(n: nat): (r: nat)
    ensures r > 0
  {
    if n == 0 then 1 else 256 * Pow256(n - 1)
  }

  /** The bytes read as one unsigned big-endian integer (the most significant byte first). */
  function BigEndian(d: seq<Byte>): nat
  {
    if d == [] then 0 else BigEndian(d[..|d| - 1]) * 256 + d[|d| - 1]
  }

  /** The `n`-byte big-endian encoding of `x` modulo 256^n: the inverse of BigEndian. */
  function ToBigEndian(x: nat, n: nat): (d: seq<Byte>)
    ensures |d| == n
  {
    if n == 0 then [] else ToBigEndian(x / 256, n - 1) + [x % 256]
  }

  lemma {:induction false} BigEndianBound(d: seq<Byte>)
    ensures BigEndian(d) < Pow256(|d|)
  {
    if d != [] {
      var init := d[..|d| - 1];
      BigEndianBound(init);
      assert BigEndian(init) + 1 <= Pow256(|init|);
      calc {
        BigEndian(d);
      ==
        BigEndian(init) * 256 + d[|d| - 1];
      <
        BigEndian(init) * 256 + 256;
      ==
        (BigEndian(init) + 1) * 256;
      <=
        Pow256(|init|) * 256;
      ==
        Pow256(|d|);
      }
    }
  }

  lemma {:induction false} BigEndianOfToBigEndian(x: nat, n: nat)
    requires x < Pow256(n)
    ensures BigEndian(ToBigEndian(x, n)) == x
  {
    if n > 0 {
      var d := ToBigEndian(x, n);
      assert x / 256 < Pow256(n - 1);
      BigEndianOfToBigEndian(x / 256, n - 1);
      assert d[..n - 1] == ToBigEndian(x / 256, n - 1);
      assert d[n - 1] == x % 256;
    }
  }

  /** 256^20 is 2^160. */
  lemma Pow256Twenty()
    ensures Pow256(20) == DIGEST_LIMIT
  {
    assert Pow256(5) == 0x100_0000_0000;
    assert Pow256(10) == 0x1_0000_0000_0000_0000_0000 by {
      assert Pow256(10) == Pow256(5) * 0x100_0000_0000;
    }
    assert Pow256(20) == Pow256(10) * 0x1_0000_0000_0000_0000_0000 by {
      PowAdd(10, 10);
    }
  }

  lemma {:induction false} PowAdd(m: nat, n: nat)
    ensures Pow256(m + n) == Pow256(m) * Pow256(n)
  {
    if n > 0 {
      PowAdd(m, n - 1);
    }
  }

  lemma {:induction false} DigestBelowLimit(d: Digest)
    ensures BigEndian(d) < DIGEST_LIMIT
  {
    BigEndianBound(d);
    Pow256Twenty();
  }

  /** The lower-case hexadecimal digit for `n` < 16, as `hexdigest()` writes it. */
  function HexDigit(n: nat): char
    requires n < 16
  {
    if n < 10 then ('0' as int + n) as char else ('a' as int + n - 10) as char
  }

  /** The value of one hexadecimal digit of either case, as `int(_, 16)` reads it; None for any other character. */
  function HexValue(c: char): (v: Option<nat>)
    ensures v.Some? ==> v.value < 16
  {
    if '0' <= c <= '9' then Some(c as int - '0' as int)
    else if 'a' <= c <= 'f' then Some(c as int - 'a' as int + 10)
    else if 'A' <= c <= 'F' then Some(c as int - 'A' as int + 10)
    else None
  }

  /** `hexdigest()`: two lower-case hexadecimal digits per byte, most significant first. */
  function HexDigest(d: seq<Byte>): (s: string)
    ensures |s| == 2 * |d|
    ensures forall i :: 0 <= i < |s| ==> HexValue(s[i]).Some?
  {
    if d == [] then ""
    else
      var b := d[|d| - 1];
      HexDigest(d[..|d| - 1]) + [HexDigit(b / 16), HexDigit(b % 16)]
  }

  /**
   * `int(s, 16)` on a string of bare hexadecimal digits, such as `hexdigest()`
   * writes: their base-16 value. An empty string or any other character gives
   * None. The whitespace, sign, `0x` prefix and underscores that Python's
   * `int` also accepts are not modelled.
   */
  function ParseHex(s: string): (r: Option<nat>)
    ensures r.Some? <==> s != [] && forall i :: 0 <= i < |s| ==> HexValue(s[i]).Some?
  {
    if s == [] then None
    else if |s| == 1 then HexValue(s[0])
    else
      match (ParseHex(s[..|s| - 1]), HexValue(s[|s| - 1]))
      case (Some(high), Some(low)) => Some(high * 16 + low)
      case _ => None
  }

  lemma HexDigitValue(n: nat)
    requires n < 16
    ensures HexValue(HexDigit(n)) == Some(n)
  {
  }

  lemma {:induction false} ParseHexAppend(s: string, c: char)
    requires s != []
    ensures ParseHex(s + [c]) ==
      match (ParseHex(s), HexValue(c))
      case (Some(high), Some(low)) => Some(high * 16 + low)
      case _ => None
  {
    assert (s + [c])[..|s|] == s;
  }

  /** The two digits of one byte parse back to the byte. */
  lemma HexByteRoundTrip(b: Byte)
    ensures ParseHex([HexDigit(b / 16), HexDigit(b % 16)]) == Some(b)
  {
    HexDigitValue(b / 16);
    HexDigitValue(b % 16);
    assert [HexDigit(b / 16), HexDigit(b % 16)][..1] == [HexDigit(b / 16)];
  }

  lemma DigitPair(x: nat, b: Byte)
    ensures (x * 16 + b / 16) * 16 + b % 16 == x * 256 + b
  {
  }

  /** Parsing the hexadecimal digest gives back the digest read as a big-endian integer. */
  lemma {:induction false} HexRoundTrip(d: seq<Byte>)
    requires d != []
    ensures ParseHex(HexDigest(d)) == Some(BigEndian(d))
  {
    var init, b := d[..|d| - 1], d[|d| - 1];
    var high, low := HexDigit(b / 16), HexDigit(b % 16);
    assert HexDigest(d) == HexDigest(init) + [high] + [low];
    if init == [] {
      assert HexDigest(d) == [high, low];
      HexByteRoundTrip(b);
    } else {
      HexDigitValue(b / 16);
      HexDigitValue(b % 16);
      HexRoundTrip(init);
      ParseHexAppend(HexDigest(init), high);
      ParseHexAppend(HexDigest(init) + [high], low);
      DigitPair(BigEndian(init), b);
    }
  }

  /** `int(digest.hexdigest(), 16)` for a SHA-1 digest. */
  function HashNumber(d: Digest): (n: nat)
    ensures n == BigEndian(d)
    ensures n < DIGEST_LIMIT
  {
    HexRoundTrip(d);
    DigestBelowLimit(d);
    ParseHex(HexDigest(d)).value
  }

  /** The port `33000 + (hash_number % 25000)` for a digest. */
  function PortFromDigest(d: Digest): (port: nat)
    ensures PORT_BASE <= port < PORT_BASE + PORT_SPAN
    ensures port - PORT_BASE == BigEndian(d) % PORT_SPAN
  {
    PORT_BASE + HashNumber(d) % PORT_SPAN
  }

  /**
   * `get_port_from_hash_key`: `utf8` stands for `str.encode('utf8')`, `sha1`
   * for `hashlib.sha1(...).digest()`.
   */
  function PortFromHashKey(sha1: seq<Byte> -> Digest, utf8: string -> seq<Byte>, key: string): (port: nat)
    ensures 33000 <= port <= 57999
  {
    PortFromDigest(sha1(utf8(key)))
  }

  /** The port depends on the key only through its UTF-8 bytes: equal bytes give the equal port. */
  lemma PortDependsOnlyOnBytes(sha1: seq<Byte> -> Digest, utf8: string -> seq<Byte>, key1: string, key2: string)
    requires utf8(key1) == utf8(key2)
    ensures PortFromHashKey(sha1, utf8, key1) == PortFromHashKey(sha1, utf8, key2)
  {
  }

  /** Every number below 2^160 is the value of some digest. */
  lemma DigestFor(x: nat) returns (d: Digest)
    requires x < DIGEST_LIMIT
    ensures BigEndian(d) == x
  {
    Pow256Twenty();
    d := ToBigEndian(x, 20);
    BigEndianOfToBigEndian(x, 20);
  }

  /** Every port of [33000, 57999] is the image of some digest: the range is exact. */
  lemma {:induction false} PortRangeAttained(port: nat)
    requires PORT_BASE <= port < PORT_BASE + PORT_SPAN
    ensures exists d: Digest :: PortFromDigest(d) == port
  {
    var d := DigestFor(port - PORT_BASE);
    assert PortFromDigest(d) == port;
  }

  /**
   * The range the code produces reaches beyond the 56000 its own comment names:
   * the digest whose value is 24999 yields port 57999.
   */
  lemma CommentBoundExceeded()
    ensures exists d: Digest :: PortFromDigest(d) == 57999
  {
    PortRangeAttained(57999);
  }
}
