/**
 * Bytes, their ASCII reading, and Python's `bytes.hex()` / `bytes.fromhex()`.
 * The game client dispatches on the hex text of each inbound frame and parses
 * frames back out of that text, so both directions are modelled.
 */
module Bytes {
  import opened Wrappers
  import opened PyText

  type byte = x: int | 0 <= x < 256

  /** The bytes of an ASCII string (the UTF-8 encoding of text that is all ASCII). */
  function Ascii(s: string): seq<byte>
    requires forall i :: 0 <= i < |s| ==> s[i] as int < 128
  {
    seq(|s|, i requires 0 <= i < |s| => s[i] as int)
  }

  /** Reads each byte as the character with that code (exact for ASCII). */
  function Chars(b: seq<byte>): string
  {
    seq(|b|, i requires 0 <= i < |b| => b[i] as char)
  }

  lemma CharsOfAscii(s: string)
    requires forall i :: 0 <= i < |s| ==> s[i] as int < 128
    ensures Chars(Ascii(s)) == s
  {
  }

  lemma AsciiAppend(s: string, t: string)
    requires forall i :: 0 <= i < |s| ==> s[i] as int < 128
    requires forall i :: 0 <= i < |t| ==> t[i] as int < 128
    ensures Ascii(s + t) == Ascii(s) + Ascii(t)
  {
  }

  function HexDigit(n: nat): (c: char)
    requires n < 16
  {
    "0123456789abcdef"[n]
  }

  /** The value of a hex digit, either case; `None` for any other character. */
  function DigitValue(c: char): (r: Option<nat>)
    ensures r.Some? ==> r.value < 16
  {
    if '0' <= c <= '9' then Some(c as int - '0' as int)
    else if 'a' <= c <= 'f' then Some(c as int - 'a' as int + 10)
    else if 'A' <= c <= 'F' then Some(c as int - 'A' as int + 10)
    else None
  }

  /** The whitespace `bytes.fromhex` skips before a byte: space, \t, \n, \v, \f, \r. */
  predicate IsAsciiSpace(c: char) {
    c == ' ' || ('\t' <= c <= '\r')
  }

  /** Python's `b.hex()`: two lower-case digits per byte. */
  function HexEncode(b: seq<byte>): (r: string)
    ensures |r| == 2 * |b|
  {
    if |b| == 0 then ""
    else [HexDigit(b[0] / 16), HexDigit(b[0] % 16)] + HexEncode(b[1..])
  }

  /** `h` spells the bytes of `b` in lowercase hex, two digits per byte. */
  predicate SpellsHex(b: seq<byte>, h: string) {
    && |h| == 2 * |b|
    && forall k :: 0 <= k < |b| ==> h[2 * k] == HexDigit(b[k] / 16) && h[2 * k + 1] == HexDigit(b[k] % 16)
  }

  /** A string spelling `b` digit by digit is `b.hex()`. */
  lemma {:induction false} SpellsHexEncode(b: seq<byte>, h: string)
    requires SpellsHex(b, h)
    ensures HexEncode(b) == h
  {
    if |b| > 0 {
      var t := h[2..];
      forall k | 0 <= k < |b| - 1
        ensures t[2 * k] == HexDigit(b[1..][k] / 16) && t[2 * k + 1] == HexDigit(b[1..][k] % 16)
      {
        assert t[2 * k] == h[2 * (k + 1)];
        assert t[2 * k + 1] == h[2 * (k + 1) + 1];
      }
      SpellsHexEncode(b[1..], t);
      assert h == [h[0], h[1]] + t;
    }
  }

  /** Python's `bytes.fromhex(s)`: pairs of hex digits, whitespace allowed before a pair;
      `None` where it raises ValueError. */
  function HexDecode(s: string): Option<seq<byte>>
  {
    if |s| == 0 then Some([])
    else if IsAsciiSpace(s[0]) then HexDecode(s[1..])
    else if |s| >= 2 && DigitValue(s[0]).Some? && DigitValue(s[1]).Some? then
      var rest :- HexDecode(s[2..]);
      Some([DigitValue(s[0]).value * 16 + DigitValue(s[1]).value] + rest)
    else None
  }

  lemma {:induction false} HexEncodeAppend(a: seq<byte>, b: seq<byte>)
    ensures HexEncode(a + b) == HexEncode(a) + HexEncode(b)
  {
    if |a| > 0 {
      assert (a + b)[1..] == a[1..] + b;
      HexEncodeAppend(a[1..], b);
    } else {
      assert a + b == b;
    }
  }

  lemma HexDigitValue(n: nat)
    requires n < 16
    ensures DigitValue(HexDigit(n)) == Some(n)
  {
    if n < 10 {
      assert HexDigit(n) as int == '0' as int + n;
    } else {
      assert HexDigit(n) as int == 'a' as int + n - 10;
    }
  }

  /** `fromhex` reads the two digits `hex` writes for a byte. */
  lemma HexDecodePair(x: byte, rest: string)
    ensures HexDecode([HexDigit(x / 16), HexDigit(x % 16)] + rest)
            == match HexDecode(rest) case None => None case Some(r) => Some([x] + r)
  {
    var s := [HexDigit(x / 16), HexDigit(x % 16)] + rest;
    HexDigitValue(x / 16);
    HexDigitValue(x % 16);
    assert !IsAsciiSpace(s[0]);
    assert s[2..] == rest;
  }

  /** `fromhex` undoes `hex`. */
  lemma {:induction false} HexRoundTrip(b: seq<byte>)
    ensures HexDecode(HexEncode(b)) == Some(b)
  {
    if |b| > 0 {
      HexDecodePair(b[0], HexEncode(b[1..]));
      HexRoundTrip(b[1..]);
      assert [b[0]] + b[1..] == b;
    }
  }

  /** Dropping `2n` hex characters drops `n` bytes. */
  lemma HexEncodeDrop(b: seq<byte>, n: nat)
    requires n <= |b|
    ensures HexEncode(b)[2 * n..] == HexEncode(b[n..])
  {
    assert b == b[..n] + b[n..];
    HexEncodeAppend(b[..n], b[n..]);
  }

  lemma HexEncodeInjective(a: seq<byte>, b: seq<byte>)
    requires HexEncode(a) == HexEncode(b)
    ensures a == b
  {
    HexRoundTrip(a);
    HexRoundTrip(b);
  }

  /** The hex text ends with the hex of `t` exactly when the bytes end with `t`. */
  lemma HexEndsWith(b: seq<byte>, t: seq<byte>)
    ensures EndsWith(HexEncode(b), HexEncode(t)) <==> EndsWith(b, t)
  {
    if EndsWith(b, t) {
      HexEndsWithIf(b, t);
    }
    if EndsWith(HexEncode(b), HexEncode(t)) {
      HexEndsWithOnlyIf(b, t);
    }
  }

  lemma HexEndsWithIf(b: seq<byte>, t: seq<byte>)
    requires EndsWith(b, t)
    ensures EndsWith(HexEncode(b), HexEncode(t))
  {
    var n := |b| - |t|;
    HexEncodeDrop(b, n);
    assert b[n..] == t;
  }

  lemma HexEndsWithOnlyIf(b: seq<byte>, t: seq<byte>)
    requires EndsWith(HexEncode(b), HexEncode(t))
    ensures EndsWith(b, t)
  {
    var hb, ht := HexEncode(b), HexEncode(t);
    var n := |b| - |t|;
    assert 2 * n == |hb| - |ht|;
    HexEncodeDrop(b, n);
    assert HexEncode(b[n..]) == ht;
    HexEncodeInjective(b[n..], t);
  }
}
