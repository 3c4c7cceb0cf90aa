/**
 * The outbound swap frame of `generate_swap_command` (eldergame.py): a fixed
 * 22-byte prefix followed by the compact JSON of two `{row, column}` objects.
 * The prefix is the type byte 0x0d, the MessagePack fixstr of the event name
 * `player-swap-intent`, and a MessagePack str8 header declaring a 43-byte string.
 */
module SwapFrame {
  import opened Wrappers
  import opened Bytes
  import opened PyText
  import MsgPack

  /** The 22 bytes `bytes.fromhex("0db2706c617965722d737761702d696e74656e74d92b")`
      yields, pair by pair. */
  const SwapPrefix: seq<byte> :=
    [0x0d, 0xb2, 0x70, 0x6c, 0x61, 0x79, 0x65, 0x72, 0x2d, 0x73, 0x77,
     0x61, 0x70, 0x2d, 0x69, 0x6e, 0x74, 0x65, 0x6e, 0x74, 0xd9, 0x2b]

  /** The hex literal the source converts with `bytes.fromhex`. */
  const SwapPrefixHex: string := "0db2706c617965722d737761702d696e74656e74d92b"

  /** The byte list is what `bytes.fromhex` makes of the literal, and its hex is the literal. */
  lemma SwapPrefixIsLiteral()
    ensures HexEncode(SwapPrefix) == SwapPrefixHex
    ensures HexDecode(SwapPrefixHex) == Some(SwapPrefix)
  {
    forall k | 0 <= k < |SwapPrefix|
      ensures SwapPrefixHex[2 * k] == HexDigit(SwapPrefix[k] / 16)
      ensures SwapPrefixHex[2 * k + 1] == HexDigit(SwapPrefix[k] % 16)
    {
      if k < 3 { SwapPrefixDigits0(k); }
      else if k < 6 { SwapPrefixDigits1(k); }
      else if k < 11 { SwapPrefixDigits2(k); }
      else if k < 17 { SwapPrefixDigits3(k); }
      else { SwapPrefixDigits4(k); }
    }
    SpellsHexEncode(SwapPrefix, SwapPrefixHex);
    HexRoundTrip(SwapPrefix);
  }

  /** The digit pairs of bytes 0 to 2. */
  lemma SwapPrefixDigits0(k: nat)
    requires k < 3
    ensures SwapPrefixHex[2 * k] == HexDigit(SwapPrefix[k] / 16)
    ensures SwapPrefixHex[2 * k + 1] == HexDigit(SwapPrefix[k] % 16)
  {
    if k == 0 {} else if k == 1 {} else {}
  }

  /** The digit pairs of bytes 3 to 5. */
  lemma SwapPrefixDigits1(k: nat)
    requires 3 <= k < 6
    ensures SwapPrefixHex[2 * k] == HexDigit(SwapPrefix[k] / 16)
    ensures SwapPrefixHex[2 * k + 1] == HexDigit(SwapPrefix[k] % 16)
  {
    if k == 3 {} else if k == 4 {} else {}
  }

  /** The digit pairs of bytes 6 to 10. */
  lemma SwapPrefixDigits2(k: nat)
    requires 6 <= k < 11
    ensures SwapPrefixHex[2 * k] == HexDigit(SwapPrefix[k] / 16)
    ensures SwapPrefixHex[2 * k + 1] == HexDigit(SwapPrefix[k] % 16)
  {
    if k == 6 {} else if k == 7 {} else if k == 8 {} else if k == 9 {} else {}
  }

  /** The digit pairs of bytes 11 to 16. */
  lemma SwapPrefixDigits3(k: nat)
    requires 11 <= k < 17
    ensures SwapPrefixHex[2 * k] == HexDigit(SwapPrefix[k] / 16)
    ensures SwapPrefixHex[2 * k + 1] == HexDigit(SwapPrefix[k] % 16)
  {
    if k == 11 {} else if k == 12 {} else if k == 13 {} else if k == 14 {} else if k == 15 {} else {}
  }

  /** The digit pairs of bytes 17 to 21. */
  lemma SwapPrefixDigits4(k: nat)
    requires 17 <= k < 22
    ensures SwapPrefixHex[2 * k] == HexDigit(SwapPrefix[k] / 16)
    ensures SwapPrefixHex[2 * k + 1] == HexDigit(SwapPrefix[k] % 16)
  {
    if k == 17 {} else if k == 18 {} else if k == 19 {} else if k == 20 {} else {}
  }

  const SwapEventName: string := "player-swap-intent"

  /** The prefix is the type byte 0x0d, the fixstr of the event name, then a str8
      header (0xd9) declaring 43 bytes (0x2b). */
  lemma SwapPrefixLayout()
    ensures SwapPrefix == [0x0d] + MsgPack.FixStr(Ascii(SwapEventName)) + [0xd9, 0x2b]
    ensures |SwapPrefix| == 22
  {
  }

  predicate IsDigit(c: char) {
    '0' <= c <= '9'
  }

  /** Decimal digits of a natural number, most significant first. */
  function NatText(n: nat): (r: string)
    ensures |r| >= 1
    ensures forall i :: 0 <= i < |r| ==> IsDigit(r[i])
    decreases n
  {
    if n < 10 then ["0123456789"[n]] else NatText(n / 10) + ["0123456789"[n % 10]]
  }

  /** How `json.dumps` writes an int. */
  function IntText(n: int): (r: string)
    ensures |r| >= 1
    ensures forall i :: 0 <= i < |r| ==> r[i] == '-' || IsDigit(r[i])
  {
    if n < 0 then "-" + NatText(-n) else NatText(n)
  }

  /** `json.dumps([{"row": r1, "column": c1}, {"row": r2, "column": c2}], separators=(',', ':'))`. */
  function PayloadText(r1: int, c1: int, r2: int, c2: int): (r: string)
    ensures IsAscii(r)
  {
    var t4 := ",\"column\":" + (IntText(c2) + "}]");
    var t3 := "},{\"row\":" + (IntText(r2) + t4);
    var t2 := ",\"column\":" + (IntText(c1) + t3);
    AsciiJoin(IntText(c2), "}]");
    AsciiJoin(",\"column\":", IntText(c2) + "}]");
    AsciiJoin(IntText(r2), t4);
    AsciiJoin("},{\"row\":", IntText(r2) + t4);
    AsciiJoin(IntText(c1), t3);
    AsciiJoin(",\"column\":", IntText(c1) + t3);
    AsciiJoin(IntText(r1), t2);
    AsciiJoin("[{\"row\":", IntText(r1) + t2);
    "[{\"row\":" + (IntText(r1) + t2)
  }

  lemma AsciiJoin(a: string, b: string)
    requires IsAscii(a) && IsAscii(b)
    ensures IsAscii(a + b)
  {
    forall i | 0 <= i < |a + b| ensures (a + b)[i] as int < 128 {
      if i >= |a| {
        assert (a + b)[i] == b[i - |a|];
      }
    }
  }

  predicate IsAscii(s: string) {
    forall i :: 0 <= i < |s| ==> s[i] as int < 128
  }

  /** The frame `generate_swap_command(r1, c1, r2, c2)` returns. */
  function SwapCommand(r1: int, c1: int, r2: int, c2: int): seq<byte> {
    SwapPrefix + Ascii(PayloadText(r1, c1, r2, c2))
  }

  // ---- the inverse: strip the prefix and read the four integers back ----

  /** Value of a string of digits, most significant first. */
  function DigitsValue(d: string): nat
    requires forall i :: 0 <= i < |d| ==> IsDigit(d[i])
  {
    if |d| == 0 then 0
    else
      assert IsDigit(d[|d| - 1]);
      DigitsValue(d[..|d| - 1]) * 10 + (d[|d| - 1] as int - '0' as int)
  }

  /** Length of the longest all-digit prefix. */
  function DigitRun(s: string): (k: nat)
    ensures k <= |s|
    ensures forall i :: 0 <= i < k ==> IsDigit(s[i])
    ensures k < |s| ==> !IsDigit(s[k])
  {
    if |s| > 0 && IsDigit(s[0]) then 1 + DigitRun(s[1..]) else 0
  }

  /** An optional '-' and at least one digit, and what follows. */
  function ParseInt(s: string): Option<(int, string)> {
    if |s| > 0 && s[0] == '-' then
      match ParseNat(s[1..])
      case None => None
      case Some(p) => Some((-(p.0 as int), p.1))
    else
      match ParseNat(s)
      case None => None
      case Some(p) => Some((p.0 as int, p.1))
  }

  /** At least one digit, and what follows. */
  function ParseNat(t: string): Option<(nat, string)> {
    var k := DigitRun(t);
    if k == 0 then None else Some((DigitsValue(t[..k]), t[k..]))
  }

  /** The rest of `s` after the literal `lit`. */
  function Expect(s: string, lit: string): Option<string> {
    if StartsWith(s, lit) then Some(s[|lit|..]) else None
  }

  /** Reads `[{"row":A,"column":B},{"row":C,"column":D}]`, with nothing after it. */
  function DecodePayload(s: string): Option<(int, int, int, int)> {
    var s :- Expect(s, "[{\"row\":");
    var p1 :- ParseInt(s);
    var s :- Expect(p1.1, ",\"column\":");
    var p2 :- ParseInt(s);
    var s :- Expect(p2.1, "},{\"row\":");
    var p3 :- ParseInt(s);
    var s :- Expect(p3.1, ",\"column\":");
    var p4 :- ParseInt(s);
    var s :- Expect(p4.1, "}]");
    if s == "" then Some((p1.0, p2.0, p3.0, p4.0)) else None
  }

  /** Strips the 22-byte prefix and reads the coordinates back. */
  function DecodeSwapCommand(frame: seq<byte>): Option<(int, int, int, int)> {
    if StartsWith(frame, SwapPrefix) then DecodePayload(Chars(frame[|SwapPrefix|..])) else None
  }

  lemma {:induction false} DigitsValueOfNatText(n: nat)
    ensures DigitsValue(NatText(n)) == n
    decreases n
  {
    var t := NatText(n);
    if n >= 10 {
      assert t[..|t| - 1] == NatText(n / 10);
      DigitsValueOfNatText(n / 10);
    }
  }

  lemma {:induction false} DigitRunOfDigits(d: string, rest: string)
    requires forall i :: 0 <= i < |d| ==> IsDigit(d[i])
    requires rest == [] || !IsDigit(rest[0])
    ensures DigitRun(d + rest) == |d|
  {
    if |d| > 0 {
      assert (d + rest)[1..] == d[1..] + rest;
      DigitRunOfDigits(d[1..], rest);
    } else {
      assert d + rest == rest;
    }
  }

  /** The digits of `m` followed by a non-digit are read back as `m`. */
  lemma ParseNatText(m: nat, rest: string)
    requires rest == [] || !IsDigit(rest[0])
    ensures ParseNat(NatText(m) + rest) == Some((m, rest))
  {
    var d := NatText(m);
    DigitRunOfDigits(d, rest);
    DigitsValueOfNatText(m);
    assert (d + rest)[..|d|] == d;
    assert (d + rest)[|d|..] == rest;
  }

  /** An int written by `json.dumps` and followed by a non-digit is read back. */
  lemma ParseIntText(n: int, rest: string)
    requires rest == [] || !IsDigit(rest[0])
    ensures ParseInt(IntText(n) + rest) == Some((n, rest))
  {
    if n < 0 {
      ParseNegativeText(-n, rest);
      ConcatAssoc("-", NatText(-n), rest);
    } else {
      ParseNonNegativeText(n, rest);
    }
  }

  /** A minus sign, the digits of `m` and a non-digit are read back as `-m`. */
  lemma ParseNegativeText(m: nat, rest: string)
    requires rest == [] || !IsDigit(rest[0])
    ensures ParseInt("-" + (NatText(m) + rest)) == Some((-(m as int), rest))
  {
    ParseNatText(m, rest);
    DropHead('-', NatText(m) + rest);
  }

  lemma DropHead<T>(c: T, s: seq<T>)
    ensures ([c] + s)[0] == c && ([c] + s)[1..] == s
  {
  }

  lemma ConcatAssoc<T>(a: seq<T>, b: seq<T>, c: seq<T>)
    ensures (a + b) + c == a + (b + c)
  {
  }

  /** The digits of `m` and a non-digit are read back as `m`. */
  lemma ParseNonNegativeText(m: nat, rest: string)
    requires rest == [] || !IsDigit(rest[0])
    ensures ParseInt(NatText(m) + rest) == Some((m as int, rest))
  {
    ParseNatText(m, rest);
    assert IsDigit((NatText(m) + rest)[0]);
  }

  lemma ExpectLiteral(lit: string, rest: string)
    ensures Expect(lit + rest, lit) == Some(rest)
  {
    assert (lit + rest)[..|lit|] == lit;
    assert (lit + rest)[|lit|..] == rest;
  }

  /** Decoding the compact payload gives back the four coordinates. */
  lemma PayloadRoundTrip(r1: int, c1: int, r2: int, c2: int)
    ensures DecodePayload(PayloadText(r1, c1, r2, c2)) == Some((r1, c1, r2, c2))
  {
    var k1, k2, k3, k4 := "[{\"row\":", ",\"column\":", "},{\"row\":", "}]";
    var t1, t2, t3, t4 := IntText(r1), IntText(c1), IntText(r2), IntText(c2);
    var e4 := t4 + k4;
    var e3 := k2 + e4;
    var d3 := t3 + e3;
    var e2 := k3 + d3;
    var d2 := t2 + e2;
    var e1 := k2 + d2;
    var d1 := t1 + e1;
    ExpectLiteral(k1, d1);
    ParseIntText(r1, e1);
    ExpectLiteral(k2, d2);
    ParseIntText(c1, e2);
    ExpectLiteral(k3, d3);
    ParseIntText(r2, e3);
    ExpectLiteral(k2, e4);
    ParseIntText(c2, k4);
    ExpectLiteral(k4, "");
    assert k4 + "" == k4;
  }

  /** Stripping the prefix of a swap frame and parsing the rest gives back the four integers. */
  lemma SwapCommandRoundTrip(r1: int, c1: int, r2: int, c2: int)
    ensures DecodeSwapCommand(SwapCommand(r1, c1, r2, c2)) == Some((r1, c1, r2, c2))
  {
    var frame := SwapCommand(r1, c1, r2, c2);
    var text := PayloadText(r1, c1, r2, c2);
    assert frame[..|SwapPrefix|] == SwapPrefix;
    assert frame[|SwapPrefix|..] == Ascii(text);
    CharsOfAscii(text);
    PayloadRoundTrip(r1, c1, r2, c2);
  }

  lemma SwapCommandSplit(r1: int, c1: int, r2: int, c2: int)
    ensures var frame := SwapCommand(r1, c1, r2, c2);
      && |frame| == 22 + |PayloadText(r1, c1, r2, c2)|
      && frame[..22] == SwapPrefix
      && frame[22..] == Ascii(PayloadText(r1, c1, r2, c2))
  {
  }

  lemma PayloadHasNoSpace(r1: int, c1: int, r2: int, c2: int)
    ensures ' ' !in PayloadText(r1, c1, r2, c2)
  {
    var a, b, c, d := IntText(r1), IntText(c1), IntText(r2), IntText(c2);
    assert ' ' !in a && ' ' !in b && ' ' !in c && ' ' !in d;
  }

  /** The frame is the type byte 0x0d, the fixstr event name, a str8 header declaring
      43 bytes, then the payload text (which has no whitespace). */
  lemma SwapCommandLayout(r1: int, c1: int, r2: int, c2: int)
    ensures var frame := SwapCommand(r1, c1, r2, c2);
      && |frame| == 22 + |PayloadText(r1, c1, r2, c2)|
      && frame[0] == 0x0d
      && MsgPack.DecodeStr(frame, 1) == Some((Ascii(SwapEventName), 20))
      && MsgPack.StrHeader(frame, 20) == Some((43, 22))
      && Chars(frame[22..]) == PayloadText(r1, c1, r2, c2)
      && ' ' !in PayloadText(r1, c1, r2, c2)
  {
    var text := PayloadText(r1, c1, r2, c2);
    var frame := SwapCommand(r1, c1, r2, c2);
    SwapCommandSplit(r1, c1, r2, c2);
    SwapPrefixLayout();
    var name := Ascii(SwapEventName);
    var rest := frame[20..];
    assert frame == [0x0d] + MsgPack.FixStr(name) + rest by {
      assert frame[..22] == [0x0d] + MsgPack.FixStr(name) + [0xd9, 0x2b];
      assert frame == frame[..20] + frame[20..];
    }
    MsgPack.FixStrRoundTrip(name, rest, [0x0d]);
    assert frame[20] == 0xd9 && frame[21] == 0x2b by {
      assert frame[20] == frame[..22][20];
      assert frame[21] == frame[..22][21];
    }
    CharsOfAscii(text);
    PayloadHasNoSpace(r1, c1, r2, c2);
  }

  lemma IntTextLength(n: int)
    ensures |IntText(n)| == 1 <==> 0 <= n <= 9
  {
    if n >= 10 { assert |NatText(n)| == |NatText(n / 10)| + 1; }
  }

  /** The str8 header's length 43 matches the payload exactly when every coordinate
      is a single digit, i.e. lies in 0..9. Every int dumps to at least one character,
      so the payload is never shorter: otherwise the declared string ends before the
      frame does. */
  lemma DeclaredLengthAgrees(r1: int, c1: int, r2: int, c2: int)
    ensures |SwapCommand(r1, c1, r2, c2)| >= 22 + 43
    ensures |SwapCommand(r1, c1, r2, c2)| == 22 + 43
            <==> 0 <= r1 <= 9 && 0 <= c1 <= 9 && 0 <= r2 <= 9 && 0 <= c2 <= 9
  {
    SwapCommandLayout(r1, c1, r2, c2);
    IntTextLength(r1);
    IntTextLength(c1);
    IntTextLength(r2);
    IntTextLength(c2);
  }
}
