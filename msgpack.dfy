/**
 * The MessagePack "str format family" headers that frame the game's event
 * names and payloads: fixstr (0xa0-0xbf, length in the low five bits),
 * str8 (0xd9 + 1 length byte), str16 (0xda + 2) and str32 (0xdb + 4),
 * lengths big-endian.
 */
module MsgPack {
  import opened Wrappers
  import opened Bytes

  /** The string header at offset `i`: the declared length and the offset of the first
      byte of the string; `None` if the byte there is no str header or the header is cut short. */
  function StrHeader(b: seq<byte>, i: nat): (r: Option<(nat, nat)>)
    ensures r.Some? ==> i < |b| && i < r.value.1 <= |b|
  {
    if i >= |b| then None
    else if 0xa0 <= b[i] <= 0xbf then Some((b[i] - 0xa0, i + 1))
    else if b[i] == 0xd9 && i + 1 < |b| then Some((b[i + 1], i + 2))
    else if b[i] == 0xda && i + 2 < |b| then Some(((b[i + 1] as int) * 0x100 + b[i + 2], i + 3))
    else if b[i] == 0xdb && i + 4 < |b| then
      Some(((((b[i + 1] as int) * 0x100 + b[i + 2]) * 0x100 + b[i + 3]) * 0x100 + b[i + 4], i + 5))
    else None
  }

  /** The string at offset `i` and the offset just past it; `None` if the declared
      length runs past the end of `b`. */
  function DecodeStr(b: seq<byte>, i: nat): Option<(seq<byte>, nat)>
  {
    var (len, start) :- StrHeader(b, i);
    if start + len <= |b| then Some((b[start..start + len], start + len)) else None
  }

  /** A fixstr: one header byte carrying the length, then the bytes. */
  function FixStr(s: seq<byte>): (r: seq<byte>)
    requires |s| < 32
  {
    [0xa0 + |s|] + s
  }

  /** A fixstr decodes back to its bytes. */
  lemma FixStrRoundTrip(s: seq<byte>, rest: seq<byte>, pre: seq<byte>)
    requires |s| < 32
    ensures DecodeStr(pre + FixStr(s) + rest, |pre|) == Some((s, |pre| + 1 + |s|))
  {
    var b := pre + FixStr(s) + rest;
    assert b[|pre|] == 0xa0 + |s|;
    assert b[|pre| + 1..|pre| + 1 + |s|] == s;
  }
}
