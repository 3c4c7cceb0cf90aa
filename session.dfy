/**
 * One game session of eldergame.py (`play_game`): a receiver that folds each
 * inbound frame into the shared state, and a sender that, once per tick, decides
 * whether to wait, to send the first valid swap of the current board, or (after
 * 5 seconds without a usable board) to send random swaps on a dummy board.
 *
 * The two loops run as concurrent tasks in the source; here each loop body is a
 * step function on `SessionState`, and `Session` is the play frame whose fields
 * both bodies update. Time (`now`) and the random draws are inputs; sleeps are
 * returned as actions. JSON `None`/`null` is `JNull`.
 */
module GameSession {
  import opened Wrappers
  import opened Bytes
  import opened PyText
  import opened JsonValues
  import opened InboundFrames
  import opened MatchFinder
  import SwapFrame

  datatype SessionState = SessionState(
    // shared by both loops (the `nonlocal` variables)
    board: Json,
    gameActive: bool,
    roundStarted: bool,
    roundActive: bool,
    validBoardReceived: bool,
    // the receiver's own `chain_count`, unbound (`None`) until a progress frame parses
    chainCount: Option<Json>,
    // the sender's own variables
    lastBoardState: Json,
    randomSwapMode: bool,
    roundHasStarted: bool,
    lastValidBoardTime: real)

  /** The state when both loops start (eldergame.py:221-225, 287-292). */
  function Initial(): SessionState {
    SessionState(JNull, true, false, false, false, None, JNull, false, false, 0.0)
  }

  // ---------------------------------------------------------------- receiver

  /** The receiver's handling of one frame, while `game_active` holds. A caught
      exception (including ConnectionClosed) clears `game_active`; assignments made
      before it stay. The markers are checked one after another, not as alternatives. */
  function Receive(s: SessionState, f: Frame, parse: seq<byte> -> Option<Json>): SessionState {
    if !s.gameActive then s
    else if f.Closed? then s.(gameActive := false)
    else ReceiveHex(s, HexView(f), parse)
  }

  /** Dispatch on the hex text of a frame. */
  function ReceiveHex(s: SessionState, h: string, parse: seq<byte> -> Option<Json>): SessionState {
    if StartsWith(h, InitialBoardPrefix) then InitialBoardFrame(s, h, parse)
    else AfterInitial(s, h, parse)
  }

  /** The `initial-board-info` branch: the empty template and an empty board end the
      iteration early (`continue`); a usable board marks the board valid. */
  function InitialBoardFrame(s: SessionState, h: string, parse: seq<byte> -> Option<Json>): SessionState {
    if h == InitialBoardPrefix + EmptyBoardSuffix then s
    else InitialBoardParsed(s, ParseInitialBoard(h, parse), h, parse)
  }

  /** The rest of the `initial-board-info` branch once `parse_initial_board` has ended in `o`. */
  function InitialBoardParsed(s: SessionState, o: Outcome, h: string, parse: seq<byte> -> Option<Json>): SessionState {
    match o
    case Raised => s.(gameActive := false)
    case Returned(b) =>
      match NonEmpty(b)
      case None => s.(board := b, gameActive := false)
      case Some(false) => s.(board := b)
      case Some(true) => AfterInitial(s.(board := b, validBoardReceived := true, roundActive := true), h, parse)
  }

  /** The `board-progressed` branch, then the markers. */
  function AfterInitial(s: SessionState, h: string, parse: seq<byte> -> Option<Json>): SessionState {
    if StartsWith(h, BoardProgressedPrefix) then Progressed(s, ParseUpdatedBoard(h, parse), h)
    else Markers(s, h)
  }

  /** The rest of the `board-progressed` branch once `parse_updated_board` has returned `u`:
      the comparison `chain_count > 0` raises while `chain_count` is unbound or not a number. */
  function Progressed(s: SessionState, u: Option<Update>, h: string): SessionState {
    var s1 := match u
      case None => s
      case Some(v) => s.(board := v.finalBoard, chainCount := Some(v.chainsCount), validBoardReceived := true);
    match s1.chainCount
    case None => s1.(gameActive := false)
    case Some(cc) => if GreaterThan(cc, 0).None? then s1.(gameActive := false) else Markers(s1, h)
  }

  function Markers(s: SessionState, h: string): SessionState {
    var s1 := if Contains(h, RoundStartMarker) then s.(roundStarted := true, roundActive := true) else s;
    if Contains(h, GameEndMarker) then s1.(gameActive := false, roundActive := false) else s1
  }

  // ---------------------------------------------------------------- sender

  /** The three random numbers one random swap draws: `randint(0, 1)`, `randint(0, rows-1)`,
      `randint(0, cols-1)`; each is reduced into its range, so every value in range is drawn
      by some input. */
  datatype Draw = Draw(direction: nat, row: nat, col: nat)

  datatype Action =
    | Sleep(seconds: real)     // `await asyncio.sleep(seconds)` then the next tick; 0.0 is a bare `continue`
    | SendFound(move: Move)    // the first valid swap is sent, then a 1.8 s sleep
    | SendRandom(move: Move)   // a random swap is sent, then a 1 s sleep
    | Raise                    // the tick raised; the handler clears `game_active`
    | Stop                     // `game_active` is false: the loop is over

  predicate IsSend(a: Action) {
    a.SendFound? || a.SendRandom?
  }

  /** The frame handed to `ws.send` for a swap. */
  function FrameOf(m: Move): seq<byte> {
    SwapFrame.SwapCommand(m.r1, m.c1, m.r2, m.c2)
  }

  /** What `valid_board_received and board and len(board) > 0 and len(board[0]) > 0` does:
      true, false, or raise (a scalar board has no `len`, a dict board has no key 0). */
  datatype Check = Usable | Unusable | Malformed

  function CheckBoard(valid: bool, b: Json): (c: Check)
    ensures c == Usable ==> valid && Truthy(b) && First(b).Some? && NonEmpty(First(b).value) == Some(true)
    ensures !valid || !Truthy(b) ==> c == Unusable
  {
    if !valid || !Truthy(b) then Unusable
    else match Len(b)
      case None => Malformed
      case Some(n) =>
        if n == 0 then Unusable
        else match First(b)
          case None => Malformed
          case Some(row) =>
            match Len(row)
            case None => Malformed
            case Some(m) => if m > 0 then Usable else Unusable
  }

  /** `[[0]*6 for _ in range(8)]`. */
  const DummyRow: Json := JArr([JNum(0), JNum(0), JNum(0), JNum(0), JNum(0), JNum(0)])
  const Dummy: Json := JArr([DummyRow, DummyRow, DummyRow, DummyRow, DummyRow, DummyRow, DummyRow, DummyRow])

  /** `rows = len(board)`, `cols = len(board[0]) if rows > 0 else 0`; `None` where they raise. */
  function Dims(b: Json): (r: Option<(nat, nat)>)
    ensures r.Some? ==> Len(b) == Some(r.value.0) && (r.value.0 == 0 ==> r.value.1 == 0)
  {
    var rows :- Len(b);
    if rows == 0 then Some((0, 0))
    else
      var first :- First(b);
      var cols :- Len(first);
      Some((rows, cols))
  }

  function Min(a: int, b: int): int {
    if a <= b then a else b
  }

  /** The random swap: direction 0 is right, 1 is down; the partner is clamped to
      the board, so on the last column (row) it is the cell itself. */
  function RandomMove(rows: nat, cols: nat, d: Draw): Move
    requires rows > 0 && cols > 0
  {
    var r1, c1 := d.row % rows, d.col % cols;
    if d.direction % 2 == 0 then Move(r1, c1, r1, Min(c1 + 1, cols - 1))
    else Move(r1, c1, Min(r1 + 1, rows - 1), c1)
  }

  /** The board as a grid of JSON cells for the match finder, when it is a list of
      lists all as long as the first. */
  function AsGrid(v: Json): (g: Option<Board<Json>>)
    ensures g.Some? ==> IsGrid(g.value) && v.JArr? && |g.value| == |v.items|
                        && forall i :: 0 <= i < |v.items| ==> v.items[i] == JArr(g.value[i])
  {
    if v.JArr? && forall i :: 0 <= i < |v.items| ==> v.items[i].JArr? then
      var g := seq(|v.items|, i requires 0 <= i < |v.items| => v.items[i].items);
      if IsGrid(g) then Some(g) else None
    else None
  }

  /** The valid-board and staleness check (eldergame.py:309-319); `None` where it raises. */
  function Refresh(s: SessionState, now: real): Option<SessionState> {
    match CheckBoard(s.validBoardReceived, s.board)
    case Malformed => None
    case Usable => Some(s.(randomSwapMode := false, lastValidBoardTime := now))
    case Unusable =>
      if now - s.lastValidBoardTime > 5.0 && !s.randomSwapMode then Some(s.(randomSwapMode := true, board := Dummy))
      else Some(s)
  }

  /** `find_valid_swap` tries no pair at all: no column, or a single cell. It then returns
      `None` without indexing a row, whatever the board's elements are. */
  predicate NoCandidates(b: Json) {
    match Dims(b)
    case None => false
    case Some((rows, cols)) => cols == 0 || (rows <= 1 && cols <= 1)
  }

  /** Normal mode: skip an unchanged board, else find, send and snapshot. */
  function Normal(s: SessionState): (SessionState, Action) {
    if s.board == s.lastBoardState then (s, Sleep(0.3))
    else if NoCandidates(s.board) then (s, Sleep(0.5))
    else
      match AsGrid(s.board)
      case None => (s.(gameActive := false), Raise)
      case Some(g) =>
        match FirstSwap(g)
        case None => (s, Sleep(0.5))
        case Some(m) => (s.(lastBoardState := s.board), SendFound(m))
  }

  /** Random mode: leave it if the board has become usable, else send a random swap
      when the board has at least one cell, else fall through to normal mode. */
  function RandomTick(s: SessionState, draw: Draw): (SessionState, Action) {
    match CheckBoard(s.validBoardReceived, s.board)
    case Usable => (s.(randomSwapMode := false), Sleep(0.0))
    case Malformed => (s.(gameActive := false), Raise)
    case Unusable =>
      match Dims(s.board)
      case None => (s.(gameActive := false), Raise)
      case Some(dims) =>
        if dims.0 > 0 && dims.1 > 0 then (s, SendRandom(RandomMove(dims.0, dims.1, draw)))
        else Normal(s)
  }

  /** One iteration of the sender loop. */
  function Decide(s: SessionState, now: real, draw: Draw): (SessionState, Action) {
    if !s.gameActive then (s, Stop)
    else if !s.roundHasStarted then
      if s.roundStarted then (s.(roundHasStarted := true, roundStarted := false), Sleep(1.5))
      else (s, Sleep(0.1))
    else
      match Refresh(s, now)
      case None => (s.(gameActive := false), Raise)
      case Some(s1) => if s1.randomSwapMode then RandomTick(s1, draw) else Normal(s1)
  }

  // ---------------------------------------------------------------- runs

  /** An interleaving of the two loops: a frame reaches the receiver, or the sender ticks. */
  datatype Event = Recv(frame: Frame) | Tick(now: real, draw: Draw)

  /** One event: the receiver's step, or the sender's step and its action. */
  function Apply(s: SessionState, e: Event, parse: seq<byte> -> Option<Json>): (SessionState, seq<Action>) {
    match e
    case Recv(f) => (Receive(s, f, parse), [])
    case Tick(now, d) => (Decide(s, now, d).0, [Decide(s, now, d).1])
  }

  /** Both loops run while `game_active` holds; the actions are the sender's. */
  function RunEvents(s: SessionState, evs: seq<Event>, parse: seq<byte> -> Option<Json>): (SessionState, seq<Action>)
    decreases |evs|
  {
    if |evs| == 0 || !s.gameActive then (s, [])
    else
      var step := Apply(s, evs[0], parse);
      var rest := RunEvents(step.0, evs[1..], parse);
      (rest.0, step.1 + rest.1)
  }

  /** A run that has handled its first `i` events, then one more (the loop step of `Play`). */
  lemma RunEventsAdvance(start: SessionState, evs: seq<Event>, parse: seq<byte> -> Option<Json>, i: nat,
                         before: SessionState, done: seq<Action>, after: SessionState, acts: seq<Action>)
    requires i < |evs| && before.gameActive
    requires RunEvents(start, evs, parse)
             == (RunEvents(before, evs[i..], parse).0, done + RunEvents(before, evs[i..], parse).1)
    requires (after, acts) == Apply(before, evs[i], parse)
    ensures RunEvents(start, evs, parse)
            == (RunEvents(after, evs[i + 1..], parse).0, (done + acts) + RunEvents(after, evs[i + 1..], parse).1)
  {
    assert evs[i..][1..] == evs[i + 1..];
    var rest := RunEvents(after, evs[i + 1..], parse);
    assert RunEvents(before, evs[i..], parse) == (rest.0, acts + rest.1);
    assert done + (acts + rest.1) == (done + acts) + rest.1;
  }

  /** The frames the sender hands to the socket, in order. */
  function Frames(acts: seq<Action>): seq<seq<byte>> {
    if |acts| == 0 then []
    else (if IsSend(acts[0]) then [FrameOf(acts[0].move)] else []) + Frames(acts[1..])
  }

  lemma {:induction false} FramesAppend(a: seq<Action>, b: seq<Action>)
    ensures Frames(a + b) == Frames(a) + Frames(b)
  {
    if |a| > 0 {
      assert (a + b)[1..] == a[1..] + b;
      FramesAppend(a[1..], b);
    } else {
      assert a + b == b;
    }
  }

  class Session {
    var board: Json
    var gameActive: bool
    var roundStarted: bool
    var roundActive: bool
    var validBoardReceived: bool
    var chainCount: Option<Json>
    var lastBoardState: Json
    var randomSwapMode: bool
    var roundHasStarted: bool
    var lastValidBoardTime: real
    /** Every frame passed to `ws.send` by the sender, in order. */
    var sent: seq<seq<byte>>
    /** `json.loads` after UTF-8 decoding; `None` where it raises. */
    const parse: seq<byte> -> Option<Json>

    function State(): SessionState
      reads this
    {
      SessionState(board, gameActive, roundStarted, roundActive, validBoardReceived,
                   chainCount, lastBoardState, randomSwapMode, roundHasStarted, lastValidBoardTime)
    }

    constructor(parse: seq<byte> -> Option<Json>)
      ensures State() == Initial() && sent == [] && this.parse == parse
    {
      board, gameActive, roundStarted, roundActive, validBoardReceived := JNull, true, false, false, false;
      chainCount := None;
      lastBoardState, randomSwapMode, roundHasStarted, lastValidBoardTime := JNull, false, false, 0.0;
      sent := [];
      this.parse := parse;
    }

    /** The body of `receive_messages` for one received frame. */
    method ReceiveFrame(f: Frame)
      modifies this
      ensures State() == Receive(old(State()), f, parse)
      ensures sent == old(sent)
    {
      if !gameActive {
        return;
      }
      if f.Closed? {
        gameActive := false;
        return;
      }
      var hexMsg := HexView(f);
      if StartsWith(hexMsg, InitialBoardPrefix) {
        ReceiveInitialBoard(hexMsg);
      } else {
        ReceiveRest(hexMsg);
      }
    }

    /** The `initial-board-info` branch of the receiver; a usable board goes on to the
        remaining tests. */
    method ReceiveInitialBoard(hexMsg: string)
      modifies this
      ensures State() == InitialBoardFrame(old(State()), hexMsg, parse)
      ensures sent == old(sent)
    {
      if hexMsg == InitialBoardPrefix + EmptyBoardSuffix {
        return;
      }
      var parsed := ParseInitialBoard(hexMsg, parse);
      ApplyInitialBoard(parsed, hexMsg);
    }

    /** What the `initial-board-info` branch does with the outcome of `parse_initial_board`. */
    method ApplyInitialBoard(parsed: Outcome, hexMsg: string)
      modifies this
      ensures State() == InitialBoardParsed(old(State()), parsed, hexMsg, parse)
      ensures sent == old(sent)
    {
      if parsed.Raised? {
        gameActive := false;
        return;
      }
      board := parsed.value;
      var nonEmpty := NonEmpty(board);
      if nonEmpty.None? {
        gameActive := false;
        return;
      }
      if !nonEmpty.value {
        return;
      }
      validBoardReceived := true;
      roundActive := true;
      ReceiveRest(hexMsg);
    }

    /** The `board-progressed` branch of the receiver, then the marker tests. */
    method ReceiveRest(hexMsg: string)
      modifies this
      ensures State() == AfterInitial(old(State()), hexMsg, parse)
      ensures sent == old(sent)
    {
      if StartsWith(hexMsg, BoardProgressedPrefix) {
        var data := ParseUpdatedBoard(hexMsg, parse);
        ApplyUpdate(data, hexMsg);
      } else {
        MarkerTests(hexMsg);
      }
    }

    /** What the `board-progressed` branch does with the parsed update, then the marker tests. */
    method ApplyUpdate(data: Option<Update>, hexMsg: string)
      modifies this
      ensures State() == Progressed(old(State()), data, hexMsg)
      ensures sent == old(sent)
    {
      if data.Some? {
        board := data.value.finalBoard;
        chainCount := Some(data.value.chainsCount);
        validBoardReceived := true;
      }
      if chainCount.None? {
        // `chain_count > 0` with `chain_count` never bound: UnboundLocalError
        gameActive := false;
        return;
      }
      if GreaterThan(chainCount.value, 0).None? {
        gameActive := false;
        return;
      }
      MarkerTests(hexMsg);
    }

    /** The round-start and game-end marker tests, one after the other. */
    method MarkerTests(hexMsg: string)
      modifies this
      ensures State() == Markers(old(State()), hexMsg)
      ensures sent == old(sent)
    {
      if Contains(hexMsg, RoundStartMarker) {
        roundStarted := true;
        roundActive := true;
      }
      if Contains(hexMsg, GameEndMarker) {
        gameActive := false;
        roundActive := false;
      }
    }

    /** The body of `send_swaps` for one tick. */
    method DecideTick(now: real, draw: Draw) returns (a: Action)
      modifies this
      ensures (State(), a) == Decide(old(State()), now, draw)
      ensures sent == old(sent) + Frames([a])
    {
      if !gameActive {
        return Stop;
      }
      if !roundHasStarted {
        if roundStarted {
          roundHasStarted := true;
          roundStarted := false;
          return Sleep(1.5);
        }
        return Sleep(0.1);
      }
      var ok := RefreshTick(now);
      if !ok {
        return Raise;
      }
      if randomSwapMode {
        a := RandomSwapTick(draw);
      } else {
        a := NormalTick();
      }
    }

    /** The valid-board check and the switch into random mode after 5 s without one;
        `false` where the check raises. */
    method RefreshTick(now: real) returns (ok: bool)
      modifies this
      ensures ok == Refresh(old(State()), now).Some?
      ensures State() == if ok then Refresh(old(State()), now).value else old(State()).(gameActive := false)
      ensures sent == old(sent)
    {
      var check := CheckBoard(validBoardReceived, board);
      if check.Malformed? {
        gameActive := false;
        return false;
      }
      if check.Usable? {
        randomSwapMode := false;
        lastValidBoardTime := now;
      } else if now - lastValidBoardTime > 5.0 {
        if !randomSwapMode {
          randomSwapMode := true;
          board := Dummy;
        }
      }
      return true;
    }

    /** Random mode of one tick: leave it, send a random swap, or fall through to normal mode. */
    method RandomSwapTick(draw: Draw) returns (a: Action)
      modifies this
      ensures (State(), a) == RandomTick(old(State()), draw)
      ensures sent == old(sent) + Frames([a])
    {
      var check := CheckBoard(validBoardReceived, board);
      if check.Usable? {
        randomSwapMode := false;
        return Sleep(0.0);
      }
      if check.Malformed? {
        gameActive := false;
        return Raise;
      }
      var dims := Dims(board);
      if dims.None? {
        gameActive := false;
        return Raise;
      }
      var rows, cols := dims.value.0, dims.value.1;
      if rows > 0 && cols > 0 {
        var m := RandomMove(rows, cols, draw);
        sent := sent + [FrameOf(m)];
        return SendRandom(m);
      }
      a := NormalTick();
    }

    /** Normal mode of one tick: compare with the snapshot, then find and send. */
    method NormalTick() returns (a: Action)
      modifies this
      ensures (State(), a) == Normal(old(State()))
      ensures sent == old(sent) + Frames([a])
    {
      if board == lastBoardState {
        return Sleep(0.3);
      }
      if NoCandidates(board) {
        return Sleep(0.5);
      }
      var grid := AsGrid(board);
      if grid.None? {
        gameActive := false;
        return Raise;
      }
      var found := FindSwap(grid.value);
      FindSwapIsFirstSwap(grid.value, found);
      if found.None? {
        return Sleep(0.5);
      }
      var m := found.value;
      sent := sent + [FrameOf(m)];
      lastBoardState := board;
      return SendFound(m);
    }

    /** One event, handed to the loop body it belongs to. */
    method Step(e: Event) returns (acts: seq<Action>)
      modifies this
      ensures (State(), acts) == Apply(old(State()), e, parse)
      ensures sent == old(sent) + Frames(acts)
    {
      match e {
        case Recv(f) =>
          ReceiveFrame(f);
          acts := [];
        case Tick(now, d) =>
          var a := DecideTick(now, d);
          acts := [a];
      }
    }

    /** Runs the two loop bodies over an interleaving of frames and ticks until the
        events run out or `game_active` is cleared. */
    method Play(events: seq<Event>) returns (actions: seq<Action>)
      modifies this
      ensures (State(), actions) == RunEvents(old(State()), events, parse)
      ensures sent == old(sent) + Frames(actions)
    {
      ghost var start := State();
      actions := [];
      var i := 0;
      assert events[0..] == events;
      assert actions + RunEvents(start, events, parse).1 == RunEvents(start, events, parse).1;
      while i < |events| && gameActive
        invariant 0 <= i <= |events|
        invariant RunEvents(start, events, parse)
                  == (RunEvents(State(), events[i..], parse).0, actions + RunEvents(State(), events[i..], parse).1)
        invariant sent == old(sent) + Frames(actions)
        decreases |events| - i
      {
        ghost var before := State();
        var acts := Step(events[i]);
        RunEventsAdvance(start, events, parse, i, before, actions, State(), acts);
        FramesAppend(actions, acts);
        actions := actions + acts;
        i := i + 1;
      }
      assert RunEvents(State(), events[i..], parse) == (State(), []);
      assert actions + [] == actions;
    }
  }
}
