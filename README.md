# Elderglade bot core, modelled in Dafny

This project models the decision-making core of the Elderglade game bot, with proofs. The bot is three Python scripts:

- **eldergame.py** plays a match-3 round over a WebSocket. It decodes the server's board frames and finds the first swap that makes a run of three. It sends that swap as a binary frame, and it falls back to random swaps when no usable board arrives. Around each game, `run_account` retries room lookups and filters out recently seen rooms.
- **connect4.py** loads private keys and referral codes and deals the codes to the keys. It authenticates a socket with a bearer token.
- **tierchecker2.py** reads an account-summary message. It cuts the JSON out of the message and sorts the key into a "Diamond" file, a "needs more referrals" file, or neither.

The modules:

- **`Wrappers`**: an `Option` type.
- **`PyText`**: the Python string operations the scripts use (`startswith`, `in`, `find`, `split(x)[0]`, `strip`, and the loaders' non-blank line filter).
- **`JsonValues`**: decoded JSON values and the Python operations applied to them. Each operation returns `None` where Python raises.
- **`Bytes`**: `bytes.hex()` and `bytes.fromhex`.
- **`MsgPack`**: MessagePack string headers.
- **`SwapFrame`**: `generate_swap_command` and its inverse.
- **`InboundFrames`**: the receiver's hex view, its markers, and `parse_initial_board` and `parse_updated_board`.
- **`MatchFinder`**: `find_valid_swap`. It works in place on a copied `array2` board and is proved against a reference scan.
- **`GameSession`**: one step of the receiver loop and one step of the sender loop, as pure functions. Runs of interleaved events are built from these steps. The class `Session` holds the shared variables and verifies against those functions.
- **`SessionProperties`**: lemmas about the two loops.
- **`Accounts`**: `create_accounts`, plus the `run_account` loop as the class `AccountSupervisor`.
- **`Referrals`**: `distribute_referral_codes` and the authentication frame.
- **`TierCheck`**: the message test, JSON-span extraction and classification of `get_referral_info`.

Several things outside the program are inputs to the model:

- **The JSON text parser** is a function parameter, `parse`, which is `None` where `json.loads` (or UTF-8 decoding) raises.
- **Clock readings** are an input `now` to the sender step.
- **`random.randint` results** are a `Draw`, reduced into range. Every in-range choice is reachable.
- **Sleeps and socket sends** become `Action` values.
- **Network results** (room lookup, join, game) are the inputs of each `run_account` attempt.

## Model

| member | source | states |
|---|---|---|
| PyText.DropPrefix | eldergame.py:55 | `s[n:]` is the suffix of `s` that is `n` shorter, and empty past the end |
| PyText.DropPrefixConcat | eldergame.py:55 | dropping the length of a prefix gives back exactly what followed it |
| PyText.IndexOf | eldergame.py:67 | `find`: `None` exactly when absent; otherwise the first occurrence |
| PyText.BeforeFirst | eldergame.py:75 | `split(x)[0]`: the longest prefix without `x`, all of `s` when `x` is absent |
| PyText.LStripShape | connect4.py:23 | `lstrip()` removes exactly the leading whitespace run |
| PyText.RStripShape | connect4.py:23 | `rstrip()` removes exactly the trailing whitespace run |
| PyText.StripBounds | connect4.py:23 | `strip()` is a slice with only whitespace cut off both ends, and its ends are not whitespace |
| PyText.StripBlank | connect4.py:23 | `strip()` is empty exactly when the line is all whitespace |
| PyText.StripIdempotent | connect4.py:23 | stripping twice equals stripping once |
| PyText.NonBlankLines | connect4.py:23 | the loader output is no longer than the file and holds no empty entry |
| PyText.NonBlankLinesAppend | connect4.py:23 | the filter keeps file order: it distributes over concatenation |
| PyText.NonBlankLinesFrom | connect4.py:32 | every loaded value is the stripped form of some line, non-empty and already stripped |
| PyText.NonBlankLinesKeep | connect4.py:32 | every non-blank line is loaded in its stripped form |
| JsonValues.Len | eldergame.py:243 | `len(v)` is defined on strings, lists and dicts only, and is positive exactly when `v` is truthy |
| JsonValues.First | eldergame.py:310 | `v[0]` is the first list element, and fails on empty or non-sequence values |
| JsonValues.Last | eldergame.py:104 | `v[-1]` is the last list element, and fails on empty or non-sequence values |
| JsonValues.GreaterThan | eldergame.py:259 | `v > k` is defined on numbers (and bools), and is the integer comparison |
| JsonValues.LessThan | tierchecker2.py:54 | `v < k` is defined on numbers (and bools), and is the integer comparison |
| JsonValues.NonEmpty | eldergame.py:243 | `v and len(v) > 0` holds exactly for non-empty strings, lists and dicts, and raises exactly for truthy numbers |
| Bytes.CharsOfAscii | eldergame.py:166 | decoding the encoded ASCII text gives the text back |
| Bytes.AsciiAppend | eldergame.py:168 | encoding distributes over concatenation |
| Bytes.DigitValue | eldergame.py:56 | a hex digit of either case has a value below 16 |
| Bytes.HexDigitValue | eldergame.py:56 | every digit `hex()` writes reads back to its value |
| Bytes.HexEncode | eldergame.py:234 | `msg.hex()` has two characters per byte |
| Bytes.HexEncodeAppend | eldergame.py:234 | hex distributes over concatenation |
| Bytes.HexRoundTrip | eldergame.py:56 | `bytes.fromhex(b.hex()) == b` |
| Bytes.HexDecodePair | eldergame.py:56 | `fromhex` reads the two digits of a byte and then the rest |
| Bytes.HexEncodeDrop | eldergame.py:55 | dropping `2n` hex characters drops `n` bytes |
| Bytes.HexEncodeInjective | eldergame.py:234 | distinct bytes have distinct hex |
| Bytes.SpellsHexEncode | eldergame.py:162 | a string giving the two lowercase digits of each byte in turn is the hex of those bytes |
| Bytes.HexEndsWith | eldergame.py:59 | the hex of `b` ends with the hex of `t` exactly when `b` ends with `t` |
| Bytes.HexEndsWithIf | eldergame.py:59 | bytes ending with `t` give hex ending with the hex of `t` |
| Bytes.HexEndsWithOnlyIf | eldergame.py:59 | hex ending with the hex of `t` comes from bytes ending with `t` |
| MsgPack.StrHeader | eldergame.py:162 | a header read at offset `i` lies inside the buffer, and the payload starts after it |
| MsgPack.FixStrRoundTrip | eldergame.py:162 | a fixstr decodes back to its bytes, at any offset |
| SwapFrame.SwapPrefixIsLiteral | eldergame.py:162 | the 22 prefix bytes are exactly what `bytes.fromhex` makes of the source's literal, and their hex is that literal |
| SwapFrame.SwapPrefixDigits0 | eldergame.py:162 | bytes 0-2 of the prefix are spelled by the literal's first six digits |
| SwapFrame.SwapPrefixDigits1 | eldergame.py:162 | bytes 3-5 are spelled by the next six digits |
| SwapFrame.SwapPrefixDigits2 | eldergame.py:162 | bytes 6-10 are spelled by the next ten digits |
| SwapFrame.SwapPrefixDigits3 | eldergame.py:162 | bytes 11-16 are spelled by the next twelve digits |
| SwapFrame.SwapPrefixDigits4 | eldergame.py:162 | bytes 17-21 are spelled by the last ten digits |
| SwapFrame.SwapPrefixLayout | eldergame.py:162 | the 22-byte prefix is type 0x0d, the fixstr `player-swap-intent`, and a str8 header declaring 43 bytes |
| SwapFrame.NatText | eldergame.py:166 | decimal text of a natural number is non-empty and all digits |
| SwapFrame.IntText | eldergame.py:166 | `json.dumps` of an int is non-empty, with a sign and digits only |
| SwapFrame.PayloadText | eldergame.py:165-166 | the compact payload is ASCII |
| SwapFrame.DigitRun | eldergame.py:166 | the longest digit prefix stops at the first non-digit |
| SwapFrame.DigitsValueOfNatText | eldergame.py:166 | the digits read back to the number |
| SwapFrame.DigitRunOfDigits | eldergame.py:166 | a digit string followed by a non-digit runs exactly its length |
| SwapFrame.ParseNatText | eldergame.py:166 | the digits of a natural number followed by a non-digit read back to the number and the rest |
| SwapFrame.ParseNegativeText | eldergame.py:166 | a minus sign and the digits of `m` read back to `-m` |
| SwapFrame.ParseNonNegativeText | eldergame.py:166 | the digits of `m` alone read back to `m` |
| SwapFrame.ParseIntText | eldergame.py:166 | a dumped int followed by a non-digit parses back to the int and the rest |
| SwapFrame.ExpectLiteral | eldergame.py:165 | a literal is consumed exactly |
| SwapFrame.PayloadRoundTrip | eldergame.py:165-166 | the payload decodes back to the four coordinates |
| SwapFrame.SwapCommandRoundTrip | eldergame.py:159-169 | stripping the prefix and decoding the rest gives back `(r1, c1, r2, c2)` |
| SwapFrame.SwapCommandSplit | eldergame.py:168-169 | the frame is the prefix followed by the payload bytes |
| SwapFrame.PayloadHasNoSpace | eldergame.py:166 | the compact separators leave no space in the payload |
| SwapFrame.SwapCommandLayout | eldergame.py:159-169 | byte 0 is 0x0d, the event name decodes at 1, the str8 header at 20 declares 43, and the payload follows at 22 |
| SwapFrame.IntTextLength | eldergame.py:166 | an int dumps to one character exactly when it is in 0..9 |
| SwapFrame.DeclaredLengthAgrees | eldergame.py:162-169 | the payload is never shorter than the declared 43 bytes, and equals it exactly when all four coordinates are single digits |
| InboundFrames.HexView | eldergame.py:234 | a binary frame's hex decodes back to its bytes, and a text frame is used as it is |
| InboundFrames.JsonSpan | eldergame.py:67-75 | absent exactly when the opening byte is missing; otherwise the bytes from its first occurrence up to the first NUL |
| InboundFrames.EmptyBoardSuffixIsHex | eldergame.py:59 | `a25b5d` is the hex of a fixstr holding `[]` |
| InboundFrames.SkipHeader | eldergame.py:55-56 | skipping 4 hex characters skips the 2 header bytes, and the rest converts back |
| InboundFrames.ParseInitialBoardEmptyTemplate | eldergame.py:59-60 | a payload ending in `a2 5b 5d` gives `[]` |
| InboundFrames.ParseInitialBoardNoBracket | eldergame.py:67-69 | a payload with no `[` gives `[]` |
| InboundFrames.ParseInitialBoardParses | eldergame.py:67-85 | otherwise the result is the parse of the bytes from the first `[` up to the first NUL, or `[]` when that parse fails |
| InboundFrames.ParseInitialBoardDecoded | eldergame.py:55-85 | once the hex decodes and has no empty-template suffix, the result is the parse of the span from the first `[`, or `[]` when it fails |
| InboundFrames.BinaryFramesNeverRaise | eldergame.py:53-85 | the hex of a binary frame always converts, so the function returns |
| InboundFrames.InitialBoardRaisesOnlyOnBadHex | eldergame.py:81-85 | an exception escapes exactly when `fromhex` fails, because the handler prints the unbound `raw_bytes` |
| InboundFrames.ParseUpdatedBoardCases | eldergame.py:88-112 | `None` on bad hex, on no `{`, on a failed parse, or on an empty `chainsInfo` list. With neither list present (or `boardsInfo` empty), the result is `(None, 0)`. Whenever `boardsInfo` is absent or empty and a result is returned, its final board is `None` |
| InboundFrames.ParseUpdatedBoardNoChains | eldergame.py:101-109 | with a non-empty `boardsInfo` and no `chainsInfo`, the update has the last entry's `boardLayout` and the count 0 |
| InboundFrames.ParseUpdatedBoardFields | eldergame.py:101-109 | with both lists present, the update has the last entry's `boardLayout` and the first entry's `chainsCount` |
| MatchFinder.Swapped | eldergame.py:145-154 | the swapped copy is a grid of the same dimensions |
| MatchFinder.FirstSwapIsAdjacent | eldergame.py:144-156 | the first valid swap exchanges a cell with its right or lower neighbour, both on the board |
| MatchFinder.Contents | eldergame.py:145 | the 2-D array read row by row |
| MatchFinder.CopyBoard | eldergame.py:145 | `[row[:] for row in board]` is a fresh array holding the board |
| MatchFinder.IsMatch | eldergame.py:122-139 | `is_match` is true exactly when the board has three equal cells in a row or a column |
| MatchFinder.TrySwap | eldergame.py:144-156 | a candidate is accepted exactly when its swapped copy has a run |
| MatchFinder.FindSwap | eldergame.py:114-157 | `None` exactly when no adjacent swap creates a run; otherwise the first in row-major, right-before-down order |
| MatchFinder.SwappedContents | eldergame.py:147 | exchanging the two cells in the array gives `Swapped` |
| MatchFinder.FirstFromNone | eldergame.py:141-157 | the reference scan finds nothing only when no candidate at or after its position makes a run |
| MatchFinder.FirstFromSome | eldergame.py:141-157 | a move the reference scan finds makes a run, and no earlier candidate does |
| MatchFinder.FirstSwapSpec | eldergame.py:141-157 | the reference scan is `None` exactly when there is no valid swap, and is otherwise the first |
| MatchFinder.FirstSwapUnique | eldergame.py:141-157 | at most one move is the first valid swap |
| MatchFinder.FindSwapIsFirstSwap | eldergame.py:114-157 | the method's answer equals the reference scan's |
| MatchFinder.UniformBoardFirstSwap | eldergame.py:319 | on a uniform board with at least 3 columns the answer is `(0,0,0,1)` |
| GameSession.CheckBoard | eldergame.py:310 | a board is usable only when it was flagged valid and is a non-empty list or string whose first element is non-empty |
| GameSession.Dims | eldergame.py:334-335 | `rows` is `len(board)`, and `cols` is 0 on an empty board |
| SessionProperties.NoCandidatesAgreesWithFinder | eldergame.py:113-157 | when `find_valid_swap` tries no pair, a scan of the same board as a grid finds nothing either, so the shortcut agrees with the finder |
| SessionProperties.UnscannableBoardsSleep | eldergame.py:360-365 | boards such as `"a"`, `["a"]`, `["", 5]` and `[[],[1]]`, on which the finder tries no pair, give `None` and a 0.5 s sleep rather than an error |
| GameSession.AsGrid | eldergame.py:361 | a board is handed to the finder only as a list of equally long lists, cell for cell |
| GameSession.RunEventsAdvance | eldergame.py:231-233 | a run of `i + 1` events is the run of `i` events followed by one step |
| GameSession.FramesAppend | eldergame.py:352 | the frames sent by two action sequences are sent in order |
| GameSession.Session.constructor | eldergame.py:221-225 | both loops start from `board=None`, `game_active=True`, and the other flags false or zero |
| GameSession.Session.ReceiveFrame | eldergame.py:227-283 | the receiver's in-place update for one frame equals `Receive`, and nothing is sent |
| GameSession.Session.ReceiveInitialBoard | eldergame.py:237-250 | the initial-board branch updates the state as `InitialBoardFrame` does |
| GameSession.Session.ApplyInitialBoard | eldergame.py:242-250 | what the branch does with the outcome of `parse_initial_board` equals `InitialBoardParsed` |
| GameSession.Session.ReceiveRest | eldergame.py:252-276 | the progress branch and the marker tests equal `AfterInitial` |
| GameSession.Session.ApplyUpdate | eldergame.py:253-276 | what the progress branch does with the parsed update, then the markers, equals `Progressed` |
| GameSession.Session.MarkerTests | eldergame.py:268-276 | the two marker tests, one after the other, equal `Markers` |
| GameSession.Session.DecideTick | eldergame.py:294-381 | one sender iteration updates the state as `Decide` does, and sends the frame of its action |
| GameSession.Session.RefreshTick | eldergame.py:308-319 | the valid-board check and the switch to random mode equal `Refresh`, and a raising check clears `game_active` |
| GameSession.Session.RandomSwapTick | eldergame.py:326-354 | random mode updates the state and sends as `RandomTick` does |
| GameSession.Session.NormalTick | eldergame.py:356-377 | normal mode updates the state and sends as `Normal` does, using the imperative finder |
| GameSession.Session.Step | eldergame.py:383-387 | one event of the interleaving updates the state as `Apply` does |
| GameSession.Session.Play | eldergame.py:383-387 | a run of events updates the state as `RunEvents` does, and the sent frames are those of its actions |
| SessionProperties.InertWhenInactive | eldergame.py:231 | once `game_active` is false, neither loop changes anything or sends |
| SessionProperties.PrefixesExclusive | eldergame.py:237-252 | a board-progressed frame is never an initial-board frame |
| SessionProperties.MarkersEffect | eldergame.py:268-276 | the marker tests set `round_started`/`round_active`, clear `game_active`/`round_active`, and nothing else |
| SessionProperties.AfterInitialEffect | eldergame.py:252-276 | the progress branch leaves the sender's variables alone and never revives the game |
| SessionProperties.ProgressedEffect | eldergame.py:253-276 | whatever `parse_updated_board` returned, the branch keeps the sender's variables, makes a parsed board the valid board and never revives the game |
| SessionProperties.GameEndMarkerEndsGame | eldergame.py:273-276 | a frame with `game-ended-by-timer` ends the game unless an initial-board `continue` skips the test |
| SessionProperties.RoundStartMarkerStartsRound | eldergame.py:268-271 | a plain start-round frame sets exactly `round_started` and `round_active` |
| SessionProperties.ReceiveHexEffect | eldergame.py:237-276 | the receiver never writes the sender's variables, and sets `round_started` only on the marker |
| SessionProperties.InitialBoardFrameEffect | eldergame.py:237-250 | the same holds for the initial-board branch |
| SessionProperties.InitialBoardParsedEffect | eldergame.py:237-250 | the same holds whatever `parse_initial_board` returned or raised |
| SessionProperties.ReceiveKeepsSenderState | eldergame.py:227-283 | the same holds for any frame, including a closed socket |
| SessionProperties.WaitForRoundStart | eldergame.py:296-306 | before the round starts, a tick only sleeps, and it consumes `round_started` |
| SessionProperties.NoSwapBeforeRoundStart | eldergame.py:296-306 | over any run with no start-round frame, no swap is sent and the sender keeps waiting |
| SessionProperties.NothingSentWithoutRoundStart | eldergame.py:221-306 | from the initial state, a run with no start-round frame sends no frame |
| SessionProperties.NormalSend | eldergame.py:356-377 | a normal send answers a board other than the snapshot, with its first swap, and records that board |
| SessionProperties.Refreshed | eldergame.py:308-319 | the refreshed state differs only in the window, the fallback flag and the dummy board |
| SessionProperties.NormalSendIsFirstSwap | eldergame.py:308-377 | every normal send is the first valid swap of the current board, which then becomes the snapshot |
| SessionProperties.DecideBoard | eldergame.py:319 | a tick changes the board only by putting the dummy board in place |
| SessionProperties.NoRepeatSwap | eldergame.py:357-374 | the board just answered is not answered again unless fallback has replaced it |
| SessionProperties.DummyBoard | eldergame.py:319 | the dummy board is 8 rows of 6 zeros, its first swap is `(0,0,0,1)`, and it is usable only when flagged valid |
| SessionProperties.FallbackEntry | eldergame.py:315-319 | fallback mode is entered only with no usable board and more than 5 s since the last one, and it installs the dummy board |
| SessionProperties.FallbackTaken | eldergame.py:315-354 | with no valid board and the window exceeded, the tick enters fallback and sends a random swap on the dummy board |
| SessionProperties.UsableBoardResetsWindow | eldergame.py:310-314 | a usable board restarts the 5-second window, leaves fallback mode, and sends no random swap on that tick |
| SessionProperties.RandomSwapBounds | eldergame.py:333-354 | a random swap starts on the board, and its partner is the clamped right or lower neighbour |
| SessionProperties.RandomMoveChoices | eldergame.py:339-348 | every direction and first cell can be drawn, and on the last column a right swap is the cell with itself |
| SessionProperties.NormalIgnoresChainCount | eldergame.py:356-377 | normal mode does not depend on the receiver's chain count |
| SessionProperties.RandomTickIgnoresChainCount | eldergame.py:326-354 | random mode does not depend on the receiver's chain count |
| SessionProperties.ChainCountIgnored | eldergame.py:289-324 | no sender decision depends on the chain count, because the sender's `chain_in_progress` is never set |
| SessionProperties.ChainCountChecks | eldergame.py:252-264 | an unparsed progress frame with no bound `chain_count` ends the game; a parsed one installs its board and sets the valid flag, and a count that cannot be compared with 0 ends the game |
| Accounts.CreateAccounts | eldergame.py:38-46 | one account per token, in order, each the template with that token and id `i+1` |
| Accounts.AccountIdsDistinct | eldergame.py:44 | account ids are distinct and lie in `1..len(tokens)` |
| Accounts.LastN | eldergame.py:436-438 | the last `n` elements, or all of them when fewer |
| Accounts.PushRecentIsLastN | eldergame.py:436-438 | append-then-`pop(0)` keeps exactly the 5 most recent accepted ids, oldest first |
| Accounts.PushRecentBound | eldergame.py:437-438 | the window never exceeds 5 entries and ends with the new id |
| Accounts.PushRecentNoDuplicates | eldergame.py:431-438 | the window never holds an id twice |
| Accounts.AttemptStepEffect | eldergame.py:422-458 | a room in the window is skipped with no change; a new room id is pushed; the counter grows exactly on a completed game |
| Accounts.RunAttemptsCount | eldergame.py:418-458 | the counter ends at the number of completed games, never passes `play_count`, and the loop stops early only on reaching it |
| Accounts.AccountSupervisor.constructor | eldergame.py:403-416 | the window starts empty and the counter at 0, with `play_count` 5 unless given |
| Accounts.AccountSupervisor.Attempt | eldergame.py:418-462 | one attempt updates the window and counter in place as `AttemptStep` does, and keeps the window equal to the last 5 accepted ids |
| Accounts.AccountSupervisor.Run | eldergame.py:403-462 | the loop updates the state as `RunAttempts` does |
| Referrals.DistributeReferralCodes | connect4.py:43-60 | the output pairs each key, in order, with `CodeFor(i)`: `""` without codes, else `codes[(i div 10) mod len]` |
| Referrals.NoCodesGiveEmpty | connect4.py:55-56 | with no codes, every key gets `""` |
| Referrals.CodeIsGiven | connect4.py:50-51 | with codes, every assigned code is one of them |
| Referrals.BlockSharesCode | connect4.py:52-54 | accounts in the same aligned block of 10 share a code |
| Referrals.DivAddBlocks | connect4.py:53-54 | `10*n` more accounts move the block index on by `n` |
| Referrals.CodesWrap | connect4.py:16-54 | after `10 * len(codes)` accounts the assignment repeats (round robin) |
| Referrals.ModAddDivisor | connect4.py:51 | the round-robin index wraps after `len(codes)` blocks |
| Referrals.MulAtLeast | connect4.py:51 | a positive number of blocks spans at least one block |
| Referrals.BlockGetsItsCode | connect4.py:50-54 | block `b` receives code `b` while codes last |
| Referrals.AuthMessage | connect4.py:71 | the frame is `40/socket,{"token":"` + token + `"}`, with the token unescaped |
| Referrals.TokenOf | connect4.py:71 | a frame read as an auth frame has room for the prefix, token and suffix |
| Referrals.AuthMessageRoundTrip | connect4.py:71 | the token is read back from its frame |
| Referrals.AuthMessageInjective | connect4.py:71 | distinct tokens give distinct frames |
| Referrals.TokenOfInverse | connect4.py:71 | every accepted frame is the auth frame of the token read from it |
| TierCheck.BeforeLast | tierchecker2.py:43 | `rsplit(x, 1)[0]` is the prefix before the last `x`, or all of `s` when `x` is absent |
| TierCheck.JsonText | tierchecker2.py:43-44 | extraction fails (IndexError) exactly when there is no `{` |
| TierCheck.BeforeLastSplit | tierchecker2.py:43 | the split is at the last `}`: the one not followed by another |
| TierCheck.JsonTextSpan | tierchecker2.py:43-44 | with a `}` after the first `{`, the text is the inclusive span from the first `{` to the last `}` |
| TierCheck.JsonTextUnclosed | tierchecker2.py:43-44 | with no `}` after the first `{`, a `}` is appended to the rest |
| TierCheck.NoBraceFails | tierchecker2.py:43-67 | a message without `{` gives `(0, 'Unknown')` and saves nothing |
| TierCheck.DecodeFailureFails | tierchecker2.py:45-63 | a JSON decode failure gives `(0, 'Unknown')` and saves nothing |
| TierCheck.DiamondWins | tierchecker2.py:51-53 | a Diamond tier goes to the Diamond file whatever the referral count |
| TierCheck.OtherTiers | tierchecker2.py:54-58 | any other tier goes to the needs-referrals file below 5 referrals, to no file at 5 or more, and fails when the count is not a number |
| TierCheck.LookupFailureFails | tierchecker2.py:47-67 | data that is not a dict, or a `referralSummary` that is not, gives `(0, 'Unknown')` |
| TierCheck.MissingFieldsDefault | tierchecker2.py:47-48 | missing fields default to 0 referrals and tier `'Unknown'`, which lands in the needs-referrals file |
| TierCheck.SavedMeansRead | tierchecker2.py:47-60 | a key is saved only when its data was read: the report then carries the account's count and tier, and at most one file is chosen (Diamond exactly for the Diamond tier) |
| TierCheck.FirstTriggerDecides | tierchecker2.py:38-40 | text messages without `referralSummary` or `tier` are skipped, and the first one with either decides the result |
| TierCheck.BinaryMessageFails | tierchecker2.py:38-67 | a binary message reached before a triggering one makes the `in` test raise TypeError, and the result is `(0, 'Unknown')` |
| TierCheck.NoTriggerFails | tierchecker2.py:38-67 | if the connection closes while only skipped text messages have arrived, the result is `(0, 'Unknown')` |

## Left out

The model does not cover these parts of the program:

- **Concurrency.** The program runs the receiver and sender as two asyncio tasks, and `run_account` runs concurrently across accounts (`create_task`, `gather`, cancellation). The model runs the two loops' steps in any chosen interleaving: a sequence of `Event`s, with each step atomic. Two await points make Python's steps finer than this. The receiver tests `while game_active` (eldergame.py:231) before it awaits `ws.recv()` (233), so Python still applies one frame that arrives after the sender has ended the game; `SessionProperties.InertWhenInactive` holds only at the model's step granularity. The sender awaits `ws.send` (eldergame.py:371) before it copies the board into `last_board_state` (374), so a board that arrives during the send becomes the snapshot without ever being answered; `GameSession.Session.NormalTick` takes the snapshot of the board it answered.
- **I/O the model does not perform:**
  - HTTP matchmaking, `join_room` and `get_or_create_room`;
  - the initial handshake commands;
  - wallet signing;
  - file reads and writes (`load_bearer_tokens`, `save_token`, `save_to_file`);
  - logging and `print`.
- **Inputs instead of effects.** The socket, sleeps, `time.time()` and `random.randint` are inputs and actions, as described above. Sends never raise. In Python, a failing `ws.send` (eldergame.py:371) reaches the sender's handler (379-381), which clears `game_active` before `last_board_state` is written. The model's `SendFound` and `SendRandom` always go out.
- **`handle_websocket`'s keep-alive loop** in connect4.py.
- **`json.loads` and UTF-8 decoding.** These are the abstract `parse` parameter, so the model makes no claim about what they accept.
- **Floats and Python's mixed equality.** Numbers are integers, and cells compare structurally, so `JBool(true)` differs from `JNum(1)`. Python treats `True == 1` and `1 == 1.0` as equal in two places. The first is `board == last_board_state`. The second is `is_match`'s cell comparisons `bd[r][c] == bd[r][c+1] == bd[r][c+2]` (eldergame.py:128, 137), and `MatchFinder.HasRun` does not follow Python there. For example, on `[[true,1,1]]` Python's finder returns `(0,0,0,1)`, because the swap makes `[1,True,1]` a run, while the model's `FirstSwap` finds nothing.
- **`bytes.fromhex` on non-ASCII text.** `Bytes.HexDecode` follows Python on ASCII digits and on whitespace before a pair. Beyond that it makes no claim about Python's exact error behaviour.
- **Unused variables.** The receiver assigns `round_active`, the sender assigns `initial_wait_complete`, and the receiver assigns its own local `chain_in_progress`. Neither loop reads any of them, so the session model tracks only `round_active`, for faithfulness, and leaves out the other two.
- **Chain suppression.** The sender skips a tick while `chain_in_progress` holds (eldergame.py:321-324, 357-359), and its comments expect this to stop swaps during a chain. But the flag the receiver sets (eldergame.py:259-264) is the receiver's own local variable, not one of its `nonlocal` names (eldergame.py:228). The sender's flag is set to `False` at eldergame.py:289 and never changes. So nothing is ever suppressed. The model has no such flag, and `SessionProperties.ChainCountIgnored` proves that the receiver's chain count has no effect on the sender.
- **When the valid-board timestamp is written.** The receiver never writes `last_valid_board_time`. Only the sender does, when its own check finds a usable board (eldergame.py:310-314). The window is therefore measured between sender ticks, which is how `GameSession.Refresh` models it.
- GameSession.Normal: ends the game on boards that are not rectangular lists of lists when a pair would be tried. `find_valid_swap` takes its width from the first row (eldergame.py:115-119) and indexes rows only when it tries a pair. When it tries none (no column, or a single cell), it returns `None` whatever the board is, and the model does the same: `GameSession.NoCandidates` sends such boards to the 0.5 s sleep. Examples are `"a"`, `["a"]`, `["", 5]` and `[[],[1]]` (`SessionProperties.UnscannableBoardsSleep`). Otherwise the model's finder works only on rectangular grids. `GameSession.AsGrid` rejects ragged boards, strings and lists whose rows are not lists, and `Normal` then ends the game as an exception would. Python can still get further on some of these boards. For example, `[[1,2,1,1],[5]]` and `[[1,1,1,2],[4]]` both give `(0,0,0,1)`, which is then sent, where the model ends the game.
- **`parse_updated_board` on non-objects.** A parsed value that is not a JSON object is treated as a parse failure (`None`). JSON text that begins at `{` can only be an object.
- **TierCheck.Classify: save failures.** The model does not cover a failing `save_to_file`, which would reach the outer handler.
- **Accounts.AttemptStep: room ids.** Room ids are strings. A room lookup that lacks `publicAddress` or `processId` is the `addressed = false` case.
