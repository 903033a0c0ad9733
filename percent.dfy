/** `encodeURIComponent`, the percent-encoding both publishing scripts use for every part of
    the OAuth 1.0a signature and header. A character is left as it is when it is one of
    `A-Z a-z 0-9 - _ . ! ~ * ' ( )`; any other character is written as the UTF-8 bytes of its
    code point, each as `%` and two upper-case hexadecimal digits. This is the set of the
    JavaScript function, which leaves `! * ' ( )` alone where section 3.6 of RFC 5849 would
    encode them. */
module PercentEncoding {
  import opened Wrappers

  /** The characters `encodeURIComponent` leaves unescaped. */
  predicate IsUnreserved(c: char)
  {
    ('A' <= c <= 'Z') || ('a' <= c <= 'z') || ('0' <= c <= '9') ||
    c == '-' || c == '_' || c == '.' || c == '!' || c == '~' || c == '*' || c == '\'' || c == '(' || c == ')'
  }

  predicate AllUnreserved(s: string)
  {
    forall i :: 0 <= i < |s| ==> IsUnreserved(s[i])
  }

  type Byte = b: nat | b < 256

  /** The UTF-8 encoding of one code point. */
  function Utf8(c: char): (bs: seq<Byte>)
    ensures 1 <= |bs| <= 4
  {
    var n := c as int;
    if n < 0x80 then [n]
    else if n < 0x800 then [0xC0 + n / 64, 0x80 + n % 64]
    else if n < 0x10000 then [0xE0 + n / 4096, 0x80 + (n / 64) % 64, 0x80 + n % 64]
    else [0xF0 + n / 262144, 0x80 + (n / 4096) % 64, 0x80 + (n / 64) % 64, 0x80 + n % 64]
  }

  function HexDigit(d: nat): (c: char)
    requires d < 16
    ensures IsHexDigit(c) && HexValue(c) == d
  {
    if d < 10 then (('0' as int) + d) as char else (('A' as int) + d - 10) as char
  }

  /** An upper-case hexadecimal digit, as `encodeURIComponent` writes them. */
  predicate IsHexDigit(c: char)
  {
    ('0' <= c <= '9') || ('A' <= c <= 'F')
  }

  function HexValue(c: char): (d: nat)
    requires IsHexDigit(c)
    ensures d < 16
  {
    if c <= '9' then c as int - '0' as int else c as int - 'A' as int + 10
  }

  /** `%XX` for one byte. */
  function PercentByte(b: Byte): (r: string)
  {
    ['%', HexDigit(b / 16), HexDigit(b % 16)]
  }

  function PercentBytes(bs: seq<Byte>): (r: string)
    ensures |r| == 3 * |bs|
  {
    if bs == [] then [] else PercentByte(bs[0]) + PercentBytes(bs[1..])
  }

  function EncodeChar(c: char): (r: string)
  {
    if IsUnreserved(c) then [c] else PercentBytes(Utf8(c))
  }

  /** `encodeURIComponent(s)`. */
  function Encode(s: string): (r: string)
    ensures |r| >= |s|
    ensures forall i :: 0 <= i < |r| ==> IsUnreserved(r[i]) || r[i] == '%'
  {
    if s == [] then []
    else
      var head, tail := EncodeChar(s[0]), Encode(s[1..]);
      assert forall i :: 0 <= i < |head| ==> IsUnreserved(head[i]) || head[i] == '%' by {
        if !IsUnreserved(s[0]) { PercentBytesCharset(Utf8(s[0])); }
      }
      head + tail
  }

  lemma {:induction false} PercentBytesCharset(bs: seq<Byte>)
    ensures forall i :: 0 <= i < |PercentBytes(bs)| ==>
              IsUnreserved(PercentBytes(bs)[i]) || PercentBytes(bs)[i] == '%'
  {
    if bs != [] {
      PercentBytesCharset(bs[1..]);
      var r := PercentBytes(bs);
      assert r == PercentByte(bs[0]) + PercentBytes(bs[1..]);
    }
  }

  /** Encoding leaves a string as it is exactly when every character of it is unreserved;
      otherwise it makes the string longer. */
  lemma {:induction false} EncodeIdentity(s: string)
    ensures Encode(s) == s <==> AllUnreserved(s)
    ensures !AllUnreserved(s) ==> |Encode(s)| > |s|
  {
    if s != [] {
      EncodeIdentity(s[1..]);
      assert Encode(s) == EncodeChar(s[0]) + Encode(s[1..]);
      if IsUnreserved(s[0]) {
        assert AllUnreserved(s) <==> AllUnreserved(s[1..]) by {
          if AllUnreserved(s[1..]) {
            forall i | 0 <= i < |s| ensures IsUnreserved(s[i]) {
              if i > 0 { assert s[i] == s[1..][i - 1]; }
            }
          }
        }
        assert Encode(s) == [s[0]] + Encode(s[1..]);
        assert s == [s[0]] + s[1..];
      } else {
        assert |EncodeChar(s[0])| >= 3;
        assert !AllUnreserved(s);
      }
    }
  }

  /** Encoding works character by character. */
  lemma {:induction false} EncodeConcat(a: string, b: string)
    ensures Encode(a + b) == Encode(a) + Encode(b)
  {
    if a != [] {
      assert (a + b)[0] == a[0] && (a + b)[1..] == a[1..] + b;
      EncodeConcat(a[1..], b);
    } else {
      assert a + b == b;
    }
  }

  /** No byte of UTF-8 below `0xC0` starts a multi-byte code point. */
  function SequenceLength(lead: Byte): nat
  {
    if lead < 0x80 then 1
    else if 0xC0 <= lead < 0xE0 then 2
    else if 0xE0 <= lead < 0xF0 then 3
    else if 0xF0 <= lead < 0xF8 then 4
    else 0
  }

  predicate IsScalar(n: int)
  {
    (0 <= n < 0xD800) || (0xE000 <= n < 0x110000)
  }

  /** The code point of one UTF-8 sequence whose length its lead byte gives. */
  function Utf8Decode(bs: seq<Byte>): Option<char>
  {
    if |bs| == 0 || SequenceLength(bs[0]) != |bs| then None
    else if !Continuations(bs) then None
    else
      var n := CodePoint(bs);
      if IsScalar(n) then Some(n as char) else None
  }

  /** Every byte after the first is a continuation byte `10xxxxxx`. */
  predicate Continuations(bs: seq<Byte>)
  {
    forall i :: 1 <= i < |bs| ==> 0x80 <= bs[i] < 0xC0
  }

  /** The code point a well-formed UTF-8 sequence of one to four bytes carries. */
  function CodePoint(bs: seq<Byte>): int
    requires 1 <= |bs| <= 4
  {
    var b := seq(|bs|, i requires 0 <= i < |bs| => bs[i] as int);
    if |b| == 1 then b[0]
    else if |b| == 2 then (b[0] - 0xC0) * 64 + (b[1] - 0x80)
    else if |b| == 3 then (b[0] - 0xE0) * 4096 + (b[1] - 0x80) * 64 + (b[2] - 0x80)
    else (b[0] - 0xF0) * 262144 + (b[1] - 0x80) * 4096 + (b[2] - 0x80) * 64 + (b[3] - 0x80)
  }

  /** The bytes of `k` consecutive `%XX` triples at the start of `s`. */
  function ReadBytes(s: string, k: nat): (r: Option<seq<Byte>>)
    ensures r.Some? ==> |r.value| == k && 3 * k <= |s|
  {
    if k == 0 then Some([])
    else if |s| < 3 || s[0] != '%' || !IsHexDigit(s[1]) || !IsHexDigit(s[2]) then None
    else
      match ReadBytes(s[3..], k - 1)
      case None => None
      case Some(rest) => Some([16 * HexValue(s[1]) + HexValue(s[2])] + rest)
  }

  /** Percent-decoding of UTF-8, the inverse the receiving server applies: a `%` starts the
      UTF-8 bytes of one code point, any other character stands for itself. */
  function Decode(s: string): Option<string>
    decreases |s|
  {
    if s == [] then Some([])
    else if s[0] != '%' then
      match Decode(s[1..])
      case None => None
      case Some(rest) => Some([s[0]] + rest)
    else if |s| < 3 || !IsHexDigit(s[1]) || !IsHexDigit(s[2]) then None
    else
      var k := SequenceLength(16 * HexValue(s[1]) + HexValue(s[2]));
      if k == 0 then None
      else
        (match ReadBytes(s, k)
         case None => None
         case Some(bs) =>
           (match Utf8Decode(bs)
            case None => None
            case Some(c) =>
              (match Decode(s[3 * k..])
               case None => None
               case Some(rest) => Some([c] + rest))))
  }

  lemma PercentByteValue(b: Byte)
    ensures IsHexDigit(PercentByte(b)[1]) && IsHexDigit(PercentByte(b)[2])
    ensures 16 * HexValue(PercentByte(b)[1]) + HexValue(PercentByte(b)[2]) == b
  {
  }

  lemma {:induction false} ReadPercentBytes(bs: seq<Byte>, t: string)
    ensures ReadBytes(PercentBytes(bs) + t, |bs|) == Some(bs)
  {
    if bs != [] {
      var s := PercentBytes(bs) + t;
      PercentByteValue(bs[0]);
      assert s[..3] == PercentByte(bs[0]);
      assert s[3..] == PercentBytes(bs[1..]) + t;
      ReadPercentBytes(bs[1..], t);
      assert [bs[0]] + bs[1..] == bs;
    }
  }

  lemma Utf8RoundTrip(c: char)
    ensures SequenceLength(Utf8(c)[0]) == |Utf8(c)|
    ensures Utf8Decode(Utf8(c)) == Some(c)
  {
    var n := c as int;
    var bs := Utf8(c);
    assert IsScalar(n);
    assert Continuations(bs) by { Utf8Continuations(c); }
    assert CodePoint(bs) == n by { Utf8CodePoint(c); }
  }

  lemma Utf8Continuations(c: char)
    ensures Continuations(Utf8(c))
  {
  }

  lemma Utf8CodePoint(c: char)
    ensures CodePoint(Utf8(c)) == c as int
  {
    var n := c as int;
    var bs := Utf8(c);
    if n < 0x80 {
    } else if n < 0x800 {
      var q, r := n / 64, n % 64;
      assert bs == [0xC0 + q, 0x80 + r];
      assert n == q * 64 + r;
    } else if n < 0x10000 {
      var q, r := n / 64, n % 64;
      var q2, r2 := q / 64, q % 64;
      assert n / 4096 == q2;
      assert bs == [0xE0 + q2, 0x80 + r2, 0x80 + r];
      assert n == q * 64 + r && q == q2 * 64 + r2;
    } else {
      var q, r := n / 64, n % 64;
      var q2, r2 := q / 64, q % 64;
      var q3, r3 := q2 / 64, q2 % 64;
      assert n / 4096 == q2;
      assert n / 262144 == q3;
      assert bs == [0xF0 + q3, 0x80 + r3, 0x80 + r2, 0x80 + r];
      assert n == q * 64 + r && q == q2 * 64 + r2 && q2 == q3 * 64 + r3;
    }
  }

  /** Percent-decoding undoes `encodeURIComponent`: the encoding loses nothing, so the
      server recovers every key, value and URL exactly. */
  lemma {:induction false} DecodeEncode(s: string)
    ensures Decode(Encode(s)) == Some(s)
  {
    if s != [] {
      DecodeEncode(s[1..]);
      assert Encode(s) == EncodeChar(s[0]) + Encode(s[1..]);
      DecodeStep(s[0], Encode(s[1..]), s[1..]);
      assert s == [s[0]] + s[1..];
    }
  }

  /** Decoding one encoded character and then the rest. */
  lemma DecodeStep(c: char, t: string, rest: string)
    requires Decode(t) == Some(rest)
    ensures Decode(EncodeChar(c) + t) == Some([c] + rest)
  {
    if IsUnreserved(c) {
      assert ([c] + t)[1..] == t;
    } else {
      DecodeEscaped(c, t, rest);
    }
  }

  lemma DecodeEscaped(c: char, t: string, rest: string)
    requires !IsUnreserved(c) && Decode(t) == Some(rest)
    ensures Decode(PercentBytes(Utf8(c)) + t) == Some([c] + rest)
  {
    var bs := Utf8(c);
    var e := PercentBytes(bs) + t;
    Utf8RoundTrip(c);
    PercentByteValue(bs[0]);
    assert e[..3] == PercentByte(bs[0]);
    ReadPercentBytes(bs, t);
    assert e[3 * |bs|..] == t;
  }
}
