/**
 * Inbound frames of the game client (eldergame.py): the hex view the receiver
 * dispatches on, the markers it looks for, and the two board parsers.
 * Both parsers skip the first 4 hex characters (2 bytes), convert the rest with
 * `bytes.fromhex`, cut the JSON text from the first `[` (or `{`) up to the first
 * NUL byte, and hand it to `json.loads`. The JSON text parser (UTF-8 decoding
 * included) is a parameter: `parse(text)` is `None` where it raises.
 */
module InboundFrames {
  import opened Wrappers
  import opened Bytes
  import opened PyText
  import opened JsonValues

  /** What `ws.recv()` delivers: a binary or a text frame, or ConnectionClosed. */
  datatype Frame = Binary(data: seq<byte>) | Text(text: string) | Closed

  /** `msg.hex() if isinstance(msg, bytes) else msg`. */
  function HexView(f: Frame): (h: string)
    requires !f.Closed?
    ensures f.Binary? ==> HexDecode(h) == Some(f.data)
    ensures f.Text? ==> h == f.text
  {
    match f
    case Binary(data) => HexRoundTrip(data); HexEncode(data)
    case Text(text) => text
  }

  /** Hex of 0x0d, fixstr(18) `initial-board-info`. */
  const InitialBoardPrefix: string := "0db2696e697469616c2d626f6172642d696e666f"
  /** Hex of the bytes `"\xa2[]"`: a fixstr holding the empty list. */
  const EmptyBoardSuffix: string := "a25b5d"
  /** Hex of 0x0d, fixstr(16) `board-progressed`. */
  const BoardProgressedPrefix: string := "0db0626f6172642d70726f67726573736564"
  /** Hex of 0x0d, fixstr(11) `start-round`, fixstr(12) `Start round!`. */
  const RoundStartMarker: string := "0dab73746172742d726f756e64ac537461727420726f756e6421"
  /** Hex of `game-ended-by-timer`. */
  const GameEndMarker: string := "67616d652d656e6465642d62792d74696d6572"

  const OpenBracket: byte := 0x5b
  const OpenBrace: byte := 0x7b
  const Nul: byte := 0x00

  /** `raw[start:].split(b'\x00')[0]` for the first occurrence of `open`; `None` if absent. */
  function JsonSpan(raw: seq<byte>, open: byte): (r: Option<seq<byte>>)
    ensures r.None? <==> open !in raw
    ensures r.Some? ==> exists k :: 0 <= k < |raw| && raw[k] == open && open !in raw[..k]
                                   && r.value == BeforeFirst(raw[k..], Nul)
  {
    match IndexOf(raw, open)
    case None => None
    case Some(k) => Some(BeforeFirst(raw[k..], Nul))
  }

  /** What a call of `parse_initial_board` ends in: a returned value, or an exception escaping. */
  datatype Outcome = Returned(value: Json) | Raised

  /** `parse_initial_board`. When `bytes.fromhex` fails, the handler's own print of
      the still-unbound `raw_bytes` raises NameError, which escapes the function. */
  function ParseInitialBoard(hexStr: string, parse: seq<byte> -> Option<Json>): Outcome {
    var hexData := DropPrefix(hexStr, 4);
    match HexDecode(hexData)
    case None => Raised
    case Some(raw) =>
      if EndsWith(hexData, EmptyBoardSuffix) then Returned(JArr([]))
      else
        match JsonSpan(raw, OpenBracket)
        case None => Returned(JArr([]))
        case Some(text) =>
          match parse(text)
          case None => Returned(JArr([]))
          case Some(board) => Returned(board)
  }

  /** The dict `parse_updated_board` returns. */
  datatype Update = Update(finalBoard: Json, chainsCount: Json)

  /** `data['boardsInfo'][-1]['boardLayout']` if the list is present and non-empty, else `None`. */
  function FinalBoard(data: Json): Option<Json>
    requires data.JObj?
  {
    if "boardsInfo" !in data.fields then Some(JNull)
    else
      var infos := data.fields["boardsInfo"];
      var n :- Len(infos);
      if n == 0 then Some(JNull)
      else
        var last :- Last(infos);
        Index(last, "boardLayout")
  }

  /** `data.get('chainsInfo', [{}])[0].get('chainsCount', 0) if 'chainsInfo' in data else 0`. */
  function ChainsCount(data: Json): Option<Json>
    requires data.JObj?
  {
    if "chainsInfo" !in data.fields then Some(JNum(0))
    else
      var first :- First(data.fields["chainsInfo"]);
      Get(first, "chainsCount", JNum(0))
  }

  /** `parse_updated_board`; every exception inside is caught and gives `None`. */
  function ParseUpdatedBoard(hexStr: string, parse: seq<byte> -> Option<Json>): Option<Update> {
    var raw :- HexDecode(DropPrefix(hexStr, 4));
    var text :- JsonSpan(raw, OpenBrace);
    var data :- parse(text);
    if !data.JObj? then None
    else
      var finalBoard :- FinalBoard(data);
      var chains :- ChainsCount(data);
      Some(Update(finalBoard, chains))
  }

  // ---- properties ----

  lemma EmptyBoardSuffixIsHex()
    ensures HexEncode([0xa2, 0x5b, 0x5d]) == EmptyBoardSuffix
  {
    assert HexEncode([0x5d]) == "5d";
    assert HexEncode([0x5b, 0x5d]) == "5b" + HexEncode([0x5d]);
    assert HexEncode([0xa2, 0x5b, 0x5d]) == "a2" + HexEncode([0x5b, 0x5d]);
  }

  /** Skipping 4 hex characters of a frame's hex skips its first 2 bytes. */
  lemma SkipHeader(head: seq<byte>, payload: seq<byte>)
    requires |head| == 2
    ensures DropPrefix(HexEncode(head + payload), 4) == HexEncode(payload)
    ensures HexDecode(HexEncode(payload)) == Some(payload)
  {
    HexEncodeDrop(head + payload, 2);
    assert (head + payload)[2..] == payload;
    HexRoundTrip(payload);
  }

  /** The empty-template case: a payload whose bytes end with `a2 5b 5d` gives `[]`. */
  lemma ParseInitialBoardEmptyTemplate(head: seq<byte>, payload: seq<byte>, parse: seq<byte> -> Option<Json>)
    requires |head| == 2 && EndsWith(payload, [0xa2, 0x5b, 0x5d])
    ensures ParseInitialBoard(HexEncode(head + payload), parse) == Returned(JArr([]))
  {
    SkipHeader(head, payload);
    EmptyBoardSuffixIsHex();
    HexEndsWith(payload, [0xa2, 0x5b, 0x5d]);
  }

  /** Without a `[` byte after the 2 skipped bytes the result is `[]`. */
  lemma ParseInitialBoardNoBracket(head: seq<byte>, payload: seq<byte>, parse: seq<byte> -> Option<Json>)
    requires |head| == 2 && OpenBracket !in payload
    ensures ParseInitialBoard(HexEncode(head + payload), parse) == Returned(JArr([]))
  {
    SkipHeader(head, payload);
  }

  /** Otherwise the bytes from the first `[` up to the first NUL are parsed, and a
      failed parse gives `[]`. */
  lemma ParseInitialBoardParses(head: seq<byte>, payload: seq<byte>, parse: seq<byte> -> Option<Json>)
    requires |head| == 2 && !EndsWith(payload, [0xa2, 0x5b, 0x5d]) && OpenBracket in payload
    ensures exists k :: 0 <= k < |payload| && payload[k] == OpenBracket && OpenBracket !in payload[..k]
              && ParseInitialBoard(HexEncode(head + payload), parse)
                 == Returned(parse(BeforeFirst(payload[k..], Nul)).GetOr(JArr([])))
  {
    var h := HexEncode(head + payload);
    SkipHeader(head, payload);
    assert !EndsWith(DropPrefix(h, 4), EmptyBoardSuffix) by {
      EmptyBoardSuffixIsHex();
      HexEndsWith(payload, [0xa2, 0x5b, 0x5d]);
    }
    var k := IndexOf(payload, OpenBracket).value;
    assert JsonSpan(payload, OpenBracket) == Some(BeforeFirst(payload[k..], Nul));
    ParseInitialBoardDecoded(h, payload, parse);
  }

  /** Past the template test, the result is the parse of the span from the first `[`. */
  lemma ParseInitialBoardDecoded(hexStr: string, raw: seq<byte>, parse: seq<byte> -> Option<Json>)
    requires HexDecode(DropPrefix(hexStr, 4)) == Some(raw)
    requires !EndsWith(DropPrefix(hexStr, 4), EmptyBoardSuffix) && JsonSpan(raw, OpenBracket).Some?
    ensures ParseInitialBoard(hexStr, parse) == Returned(parse(JsonSpan(raw, OpenBracket).value).GetOr(JArr([])))
  {
  }

  /** A binary frame always converts, so the NameError path is reached only from a
      text frame that is not valid hex past its first 4 characters. */
  lemma BinaryFramesNeverRaise(data: seq<byte>, parse: seq<byte> -> Option<Json>)
    ensures ParseInitialBoard(HexView(Binary(data)), parse).Returned?
  {
    var h := HexEncode(data);
    if |data| >= 2 {
      HexEncodeDrop(data, 2);
      HexRoundTrip(data[2..]);
    } else {
      assert DropPrefix(h, 4) == [];
    }
  }

  lemma InitialBoardRaisesOnlyOnBadHex(hexStr: string, parse: seq<byte> -> Option<Json>)
    ensures ParseInitialBoard(hexStr, parse).Raised? <==> HexDecode(DropPrefix(hexStr, 4)).None?
  {
  }

  /** What `parse_updated_board` returns: bad hex, no `{` or a failed parse
      gives `None`, an absent `chainsInfo` gives count 0, a present but empty `chainsInfo`
      list gives `None` (IndexError), a first entry without `chainsCount` gives 0, and an
      absent or empty `boardsInfo` gives a `None` final board. */
  lemma ParseUpdatedBoardCases(hexStr: string, parse: seq<byte> -> Option<Json>)
    ensures var raw := HexDecode(DropPrefix(hexStr, 4));
      && (raw.None? ==> ParseUpdatedBoard(hexStr, parse).None?)
      && (raw.Some? ==>
        && (OpenBrace !in raw.value ==> ParseUpdatedBoard(hexStr, parse).None?)
        && (OpenBrace in raw.value ==>
              var data := parse(JsonSpan(raw.value, OpenBrace).value);
              && (data.None? ==> ParseUpdatedBoard(hexStr, parse).None?)
              && (data.Some? && data.value.JObj? ==>
                    var f := data.value.fields;
                    && (("chainsInfo" !in f && ("boardsInfo" !in f || f["boardsInfo"] == JArr([])))
                          ==> ParseUpdatedBoard(hexStr, parse) == Some(Update(JNull, JNum(0))))
                    && (("chainsInfo" in f && f["chainsInfo"] == JArr([]))
                          ==> ParseUpdatedBoard(hexStr, parse).None?)
                    && ((("boardsInfo" !in f || f["boardsInfo"] == JArr([])) && ParseUpdatedBoard(hexStr, parse).Some?)
                          ==> ParseUpdatedBoard(hexStr, parse).value.finalBoard == JNull))))
  {
  }

  /** With both lists present and well-formed, the update carries the last board's
      layout and the first chain entry's count, defaulting to 0. */
  lemma ParseUpdatedBoardFields(hexStr: string, parse: seq<byte> -> Option<Json>,
                                boards: seq<Json>, chains: seq<Json>, layout: Json)
    requires HexDecode(DropPrefix(hexStr, 4)).Some?
    requires var raw := HexDecode(DropPrefix(hexStr, 4)).value;
      OpenBrace in raw && parse(JsonSpan(raw, OpenBrace).value).Some?
    requires var data := parse(JsonSpan(HexDecode(DropPrefix(hexStr, 4)).value, OpenBrace).value).value;
      && data.JObj? && "boardsInfo" in data.fields && "chainsInfo" in data.fields
      && data.fields["boardsInfo"] == JArr(boards) && data.fields["chainsInfo"] == JArr(chains)
    requires |boards| > 0 && boards[|boards| - 1].JObj? && "boardLayout" in boards[|boards| - 1].fields
    requires boards[|boards| - 1].fields["boardLayout"] == layout
    requires |chains| > 0 && chains[0].JObj?
    ensures ParseUpdatedBoard(hexStr, parse)
            == Some(Update(layout, if "chainsCount" in chains[0].fields then chains[0].fields["chainsCount"] else JNum(0)))
  {
    var raw := HexDecode(DropPrefix(hexStr, 4)).value;
    var data := parse(JsonSpan(raw, OpenBrace).value).value;
    assert FinalBoard(data) == Some(layout);
    assert ChainsCount(data)
           == Some(if "chainsCount" in chains[0].fields then chains[0].fields["chainsCount"] else JNum(0));
  }

  /** With a non-empty `boardsInfo` and no `chainsInfo` key, the update carries the last
      board's layout and the count 0 of the `else 0` branch. */
  lemma ParseUpdatedBoardNoChains(hexStr: string, parse: seq<byte> -> Option<Json>,
                                  boards: seq<Json>, layout: Json)
    requires HexDecode(DropPrefix(hexStr, 4)).Some?
    requires var raw := HexDecode(DropPrefix(hexStr, 4)).value;
      OpenBrace in raw && parse(JsonSpan(raw, OpenBrace).value).Some?
    requires var data := parse(JsonSpan(HexDecode(DropPrefix(hexStr, 4)).value, OpenBrace).value).value;
      && data.JObj? && "boardsInfo" in data.fields && "chainsInfo" !in data.fields
      && data.fields["boardsInfo"] == JArr(boards)
    requires |boards| > 0 && boards[|boards| - 1].JObj? && "boardLayout" in boards[|boards| - 1].fields
    requires boards[|boards| - 1].fields["boardLayout"] == layout
    ensures ParseUpdatedBoard(hexStr, parse) == Some(Update(layout, JNum(0)))
  {
    var raw := HexDecode(DropPrefix(hexStr, 4)).value;
    var data := parse(JsonSpan(raw, OpenBrace).value).value;
    assert FinalBoard(data) == Some(layout);
    assert ChainsCount(data) == Some(JNum(0));
  }
}
