/**
 * Properties of the session step functions: what a game-end or round-start frame
 * does, that no swap goes out before the round has started, what a normal send
 * and a random send promise, when fallback mode is entered, and that the chain
 * count the receiver keeps has no effect on the sender.
 */
module SessionProperties {
  import opened Wrappers
  import opened Bytes
  import opened JsonValues
  import opened PyText
  import opened InboundFrames
  import opened MatchFinder
  import opened GameSession

  /** Once `game_active` is false neither loop does anything more. */
  lemma InertWhenInactive(s: SessionState, f: Frame, now: real, d: Draw, evs: seq<Event>,
                          parse: seq<byte> -> Option<Json>)
    requires !s.gameActive
    ensures Receive(s, f, parse) == s
    ensures Decide(s, now, d) == (s, Stop)
    ensures RunEvents(s, evs, parse) == (s, [])
  {
  }

  /** The initial-board and board-progressed prefixes differ in their fourth hex digit. */
  lemma PrefixesExclusive(h: string)
    ensures StartsWith(h, BoardProgressedPrefix) ==> !StartsWith(h, InitialBoardPrefix)
  {
    if StartsWith(h, BoardProgressedPrefix) {
      assert h[3] == BoardProgressedPrefix[3] == '0';
      assert InitialBoardPrefix[3] == '2';
    }
  }

  /** What the marker tests change. */
  lemma MarkersEffect(s: SessionState, h: string)
    ensures var t := Markers(s, h);
      && t == s.(roundStarted := t.roundStarted, roundActive := t.roundActive, gameActive := t.gameActive)
      && t.roundStarted == (s.roundStarted || Contains(h, RoundStartMarker))
      && t.gameActive == (s.gameActive && !Contains(h, GameEndMarker))
      && (Contains(h, GameEndMarker) ==> !t.roundActive)
  {
  }

  /** What the board-progressed branch and the marker tests together may change. */
  lemma AfterInitialEffect(s: SessionState, h: string, parse: seq<byte> -> Option<Json>)
    ensures var t := AfterInitial(s, h, parse);
      && t.lastBoardState == s.lastBoardState && t.randomSwapMode == s.randomSwapMode
      && t.roundHasStarted == s.roundHasStarted && t.lastValidBoardTime == s.lastValidBoardTime
      && (t.roundStarted ==> s.roundStarted || Contains(h, RoundStartMarker))
      && (s.validBoardReceived ==> t.validBoardReceived)
      && (t.gameActive ==> s.gameActive)
      && (Contains(h, GameEndMarker) ==> !t.gameActive)
      && (!StartsWith(h, BoardProgressedPrefix) ==> t == Markers(s, h))
  {
    if StartsWith(h, BoardProgressedPrefix) {
      ProgressedEffect(s, ParseUpdatedBoard(h, parse), h);
    } else {
      MarkersEffect(s, h);
    }
  }

  /** Whatever `parse_updated_board` returned, the rest of the branch leaves the sender's
      variables alone, keeps a valid board valid and never revives the game. */
  lemma ProgressedEffect(s: SessionState, u: Option<Update>, h: string)
    ensures var t := Progressed(s, u, h);
      && t.lastBoardState == s.lastBoardState && t.randomSwapMode == s.randomSwapMode
      && t.roundHasStarted == s.roundHasStarted && t.lastValidBoardTime == s.lastValidBoardTime
      && (t.roundStarted ==> s.roundStarted || Contains(h, RoundStartMarker))
      && (s.validBoardReceived ==> t.validBoardReceived)
      && (u.Some? ==> t.validBoardReceived && t.board == u.value.finalBoard)
      && (t.gameActive ==> s.gameActive)
      && (Contains(h, GameEndMarker) ==> !t.gameActive)
  {
    var s1 := match u
      case None => s
      case Some(v) => s.(board := v.finalBoard, chainCount := Some(v.chainsCount), validBoardReceived := true);
    MarkersEffect(s1, h);
  }

  /** The receiver reaches the marker tests unless the frame is an initial-board frame
      that is the empty template or carries an empty board. */
  predicate InitialContinues(h: string, parse: seq<byte> -> Option<Json>) {
    && StartsWith(h, InitialBoardPrefix)
    && (|| h == InitialBoardPrefix + EmptyBoardSuffix
        || (ParseInitialBoard(h, parse).Returned? && NonEmpty(ParseInitialBoard(h, parse).value) == Some(false)))
  }

  /** A frame whose hex contains `game-ended-by-timer` ends the game, and when no parser
      branch ran before the test it also clears `round_active`. */
  lemma GameEndMarkerEndsGame(s: SessionState, f: Frame, parse: seq<byte> -> Option<Json>)
    requires s.gameActive && !f.Closed? && Contains(HexView(f), GameEndMarker)
    ensures !InitialContinues(HexView(f), parse) ==> !Receive(s, f, parse).gameActive
    ensures !StartsWith(HexView(f), InitialBoardPrefix) && !StartsWith(HexView(f), BoardProgressedPrefix)
            ==> !Receive(s, f, parse).roundActive
  {
    var h := HexView(f);
    if !StartsWith(h, InitialBoardPrefix) {
      AfterInitialEffect(s, h, parse);
      MarkersEffect(s, h);
    } else if h != InitialBoardPrefix + EmptyBoardSuffix && ParseInitialBoard(h, parse).Returned? {
      var b := ParseInitialBoard(h, parse).value;
      AfterInitialEffect(s.(board := b, validBoardReceived := true, roundActive := true), h, parse);
    }
  }

  /** A plain frame with the `start-round` marker (and no game-end marker) raises
      `round_started` and `round_active` and changes nothing else. */
  lemma RoundStartMarkerStartsRound(s: SessionState, f: Frame, parse: seq<byte> -> Option<Json>)
    requires s.gameActive && !f.Closed?
    requires Contains(HexView(f), RoundStartMarker) && !Contains(HexView(f), GameEndMarker)
    requires !StartsWith(HexView(f), InitialBoardPrefix) && !StartsWith(HexView(f), BoardProgressedPrefix)
    ensures Receive(s, f, parse) == s.(roundStarted := true, roundActive := true)
  {
  }

  /** A frame carries the round-start marker. */
  predicate Announces(f: Frame) {
    !f.Closed? && Contains(HexView(f), RoundStartMarker)
  }

  /** The receiver never touches the sender's own variables, and raises `round_started`
      only on a frame with the round-start marker. */
  lemma ReceiveHexEffect(s: SessionState, h: string, parse: seq<byte> -> Option<Json>)
    ensures var t := ReceiveHex(s, h, parse);
      && t.lastBoardState == s.lastBoardState && t.randomSwapMode == s.randomSwapMode
      && t.roundHasStarted == s.roundHasStarted && t.lastValidBoardTime == s.lastValidBoardTime
      && (t.roundStarted ==> s.roundStarted || Contains(h, RoundStartMarker))
      && (s.validBoardReceived ==> t.validBoardReceived)
      && (t.gameActive ==> s.gameActive)
  {
    if !StartsWith(h, InitialBoardPrefix) {
      AfterInitialEffect(s, h, parse);
    } else {
      InitialBoardFrameEffect(s, h, parse);
    }
  }

  lemma InitialBoardFrameEffect(s: SessionState, h: string, parse: seq<byte> -> Option<Json>)
    ensures var t := InitialBoardFrame(s, h, parse);
      && t.lastBoardState == s.lastBoardState && t.randomSwapMode == s.randomSwapMode
      && t.roundHasStarted == s.roundHasStarted && t.lastValidBoardTime == s.lastValidBoardTime
      && (t.roundStarted ==> s.roundStarted || Contains(h, RoundStartMarker))
      && (s.validBoardReceived ==> t.validBoardReceived)
      && (t.gameActive ==> s.gameActive)
  {
    if h != InitialBoardPrefix + EmptyBoardSuffix {
      InitialBoardParsedEffect(s, ParseInitialBoard(h, parse), h, parse);
    }
  }

  /** The same once `parse_initial_board` has ended in `o`, whatever `o` is. */
  lemma InitialBoardParsedEffect(s: SessionState, o: Outcome, h: string, parse: seq<byte> -> Option<Json>)
    ensures var t := InitialBoardParsed(s, o, h, parse);
      && t.lastBoardState == s.lastBoardState && t.randomSwapMode == s.randomSwapMode
      && t.roundHasStarted == s.roundHasStarted && t.lastValidBoardTime == s.lastValidBoardTime
      && (t.roundStarted ==> s.roundStarted || Contains(h, RoundStartMarker))
      && (s.validBoardReceived ==> t.validBoardReceived)
      && (t.gameActive ==> s.gameActive)
  {
    if o.Returned? && NonEmpty(o.value) == Some(true) {
      AfterInitialEffect(s.(board := o.value, validBoardReceived := true, roundActive := true), h, parse);
    }
  }

  lemma ReceiveKeepsSenderState(s: SessionState, f: Frame, parse: seq<byte> -> Option<Json>)
    ensures var t := Receive(s, f, parse);
      && t.lastBoardState == s.lastBoardState && t.randomSwapMode == s.randomSwapMode
      && t.roundHasStarted == s.roundHasStarted && t.lastValidBoardTime == s.lastValidBoardTime
      && (t.roundStarted ==> s.roundStarted || Announces(f))
      && (s.validBoardReceived ==> t.validBoardReceived)
      && (t.gameActive ==> s.gameActive)
  {
    if s.gameActive && !f.Closed? {
      ReceiveHexEffect(s, HexView(f), parse);
    }
  }

  /** Before the round has started a tick sends nothing: it only waits, consuming
      `round_started` once it is seen. */
  lemma WaitForRoundStart(s: SessionState, now: real, d: Draw)
    requires s.gameActive && !s.roundHasStarted
    ensures var (t, a) := Decide(s, now, d);
      && !IsSend(a) && a.Sleep?
      && t.roundHasStarted == s.roundStarted && !t.roundStarted
      && t.board == s.board && t.lastBoardState == s.lastBoardState
  {
  }

  /** A state in which the sender has not yet seen the round start. */
  predicate Waiting(s: SessionState) {
    !s.roundHasStarted && !s.roundStarted
  }

  /** Over any run in which no frame announces the round start, no swap is sent and the
      sender is still waiting at the end. */
  lemma {:induction false} NoSwapBeforeRoundStart(s: SessionState, evs: seq<Event>, parse: seq<byte> -> Option<Json>)
    requires Waiting(s)
    requires forall k :: 0 <= k < |evs| && evs[k].Recv? ==> !Announces(evs[k].frame)
    ensures Waiting(RunEvents(s, evs, parse).0)
    ensures forall k :: 0 <= k < |RunEvents(s, evs, parse).1| ==> !IsSend(RunEvents(s, evs, parse).1[k])
    ensures Frames(RunEvents(s, evs, parse).1) == []
    decreases |evs|
  {
    if |evs| > 0 && s.gameActive {
      var step := Apply(s, evs[0], parse);
      match evs[0] {
        case Recv(f) =>
          ReceiveKeepsSenderState(s, f, parse);
        case Tick(now, d) =>
          WaitForRoundStart(s, now, d);
      }
      assert Waiting(step.0);
      assert forall k :: 0 <= k < |evs[1..]| && evs[1..][k].Recv? ==> !Announces(evs[1..][k].frame) by {
        forall k | 0 <= k < |evs[1..]| && evs[1..][k].Recv?
          ensures !Announces(evs[1..][k].frame)
        {
          assert evs[1..][k] == evs[k + 1];
        }
      }
      NoSwapBeforeRoundStart(step.0, evs[1..], parse);
      var rest := RunEvents(step.0, evs[1..], parse);
      assert forall k :: 0 <= k < |step.1| ==> !IsSend(step.1[k]);
      FramesAppend(step.1, rest.1);
      assert Frames(step.1) == [] by {
        if |step.1| == 1 {
          assert step.1[1..] == [];
        }
      }
    }
  }

  /** From the initial state, a run without any round-start frame sends no frame at all. */
  lemma NothingSentWithoutRoundStart(evs: seq<Event>, parse: seq<byte> -> Option<Json>)
    requires forall k :: 0 <= k < |evs| && evs[k].Recv? ==> !Announces(evs[k].frame)
    ensures Frames(RunEvents(Initial(), evs, parse).1) == []
  {
    NoSwapBeforeRoundStart(Initial(), evs, parse);
  }

  /** Normal mode sends only for a board other than the snapshot, and records it. */
  lemma NormalSend(s: SessionState)
    requires Normal(s).1.SendFound?
    ensures var (t, a) := Normal(s);
      && s.board != s.lastBoardState
      && t == s.(lastBoardState := s.board)
      && AsGrid(s.board).Some?
      && IsFirstSwap(AsGrid(s.board).value, a.move)
      && AdjacentInBounds(AsGrid(s.board).value, a.move)
  {
    var g := AsGrid(s.board).value;
    FirstSwapSpec(g);
    FirstSwapIsAdjacent(g, Normal(s).1.move);
  }

  /** The state a tick that got past the round-start wait works on. */
  lemma Refreshed(s: SessionState, now: real, d: Draw)
    requires s.gameActive && s.roundHasStarted && Refresh(s, now).Some?
    ensures var s1 := Refresh(s, now).value;
      && s1 == s.(randomSwapMode := s1.randomSwapMode, lastValidBoardTime := s1.lastValidBoardTime, board := s1.board)
      && (s1.board == s.board || s1.board == Dummy)
      && Decide(s, now, d) == (if s1.randomSwapMode then RandomTick(s1, d) else Normal(s1))
  {
  }

  /** A normal send is the first valid swap of the current board, that board differs
      from the snapshot of the previous normal send, and it becomes the new snapshot;
      so the same board is never answered twice in normal mode. */
  lemma NormalSendIsFirstSwap(s: SessionState, now: real, d: Draw)
    requires Decide(s, now, d).1.SendFound?
    ensures var (t, a) := Decide(s, now, d);
      && t.board != s.lastBoardState
      && t.lastBoardState == t.board
      && AsGrid(t.board).Some?
      && IsFirstSwap(AsGrid(t.board).value, a.move)
      && AdjacentInBounds(AsGrid(t.board).value, a.move)
      && t.gameActive && t.roundHasStarted
  {
    assert s.gameActive && s.roundHasStarted && Refresh(s, now).Some?;
    Refreshed(s, now, d);
    var s1 := Refresh(s, now).value;
    if s1.randomSwapMode {
      assert RandomTick(s1, d) == Normal(s1);
    }
    NormalSend(s1);
  }

  /** A tick leaves the board alone except when fallback mode puts the dummy board in place. */
  lemma DecideBoard(s: SessionState, now: real, d: Draw)
    ensures Decide(s, now, d).0.board == s.board || Decide(s, now, d).0.board == Dummy
  {
    if s.gameActive && s.roundHasStarted && Refresh(s, now).Some? {
      Refreshed(s, now, d);
    }
  }

  /** Directly after a tick that sent a normal swap, a second tick on the same state
      sends no normal swap unless fallback mode has just replaced the board. */
  lemma NoRepeatSwap(s: SessionState, now: real, d: Draw, now2: real, d2: Draw)
    requires Decide(s, now, d).1.SendFound?
    ensures var t := Decide(s, now, d).0;
      Decide(t, now2, d2).1.SendFound? ==> Decide(t, now2, d2).0.board == Dummy && t.board != Dummy
  {
    NormalSendIsFirstSwap(s, now, d);
    var t := Decide(s, now, d).0;
    if Decide(t, now2, d2).1.SendFound? {
      NormalSendIsFirstSwap(t, now2, d2);
      DecideBoard(t, now2, d2);
    }
  }

  /** `[[0]*6 for _ in range(8)]`: 8 rows of 6 zeros, whose first valid swap is (0,0)-(0,1). */
  lemma DummyBoard()
    ensures Dims(Dummy) == Some((8, 6))
    ensures AsGrid(Dummy).Some? && |AsGrid(Dummy).value| == 8 && Cols(AsGrid(Dummy).value) == 6
    ensures forall i, j :: 0 <= i < 8 && 0 <= j < 6 ==> AsGrid(Dummy).value[i][j] == JNum(0)
    ensures FirstSwap(AsGrid(Dummy).value) == Some(Move(0, 0, 0, 1))
    ensures CheckBoard(true, Dummy) == Usable && CheckBoard(false, Dummy) == Unusable
  {
    var g := AsGrid(Dummy).value;
    UniformBoardFirstSwap(g, JNum(0));
  }

  /** Fallback mode is entered only on a tick with no usable board and more than 5 seconds
      since the last usable one, and entering it puts the dummy board in place. */
  lemma FallbackEntry(s: SessionState, now: real, d: Draw)
    ensures var t := Decide(s, now, d).0;
      !s.randomSwapMode && t.randomSwapMode ==>
        && s.gameActive && s.roundHasStarted
        && CheckBoard(s.validBoardReceived, s.board) == Unusable
        && now - s.lastValidBoardTime > 5.0
        && t.board == Dummy
  {
  }

  /** Conversely, with no valid board ever received and the window exceeded, the tick
      enters fallback mode and at once sends a random swap on the dummy board. */
  lemma FallbackTaken(s: SessionState, now: real, d: Draw)
    requires s.gameActive && s.roundHasStarted && !s.randomSwapMode && !s.validBoardReceived
    requires now - s.lastValidBoardTime > 5.0
    ensures var (t, a) := Decide(s, now, d);
      t.randomSwapMode && t.board == Dummy && a.SendRandom? && a.move == RandomMove(8, 6, d)
  {
    DummyBoard();
  }

  /** A usable board leaves fallback mode and restarts the 5-second window. */
  lemma UsableBoardResetsWindow(s: SessionState, now: real, d: Draw)
    requires s.gameActive && s.roundHasStarted && CheckBoard(s.validBoardReceived, s.board) == Usable
    ensures var t := Decide(s, now, d).0;
      !t.randomSwapMode && t.lastValidBoardTime == now && !Decide(s, now, d).1.SendRandom?
  {
  }

  /** A random swap has its first cell on the board and its partner clamped to the board:
      the right neighbour `(r1, min(c1+1, cols-1))` or the lower `(min(r1+1, rows-1), c1)`. */
  lemma RandomSwapBounds(s: SessionState, now: real, d: Draw)
    requires Decide(s, now, d).1.SendRandom?
    ensures var (t, a) := Decide(s, now, d);
      && t.randomSwapMode && Dims(t.board).Some?
      && var (rows, cols) := Dims(t.board).value;
        && rows > 0 && cols > 0
        && 0 <= a.move.r1 < rows && 0 <= a.move.c1 < cols
        && ((a.move.r2 == a.move.r1 && a.move.c2 == Min(a.move.c1 + 1, cols - 1))
            || (a.move.r2 == Min(a.move.r1 + 1, rows - 1) && a.move.c2 == a.move.c1))
  {
    assert s.gameActive && s.roundHasStarted && Refresh(s, now).Some?;
    Refreshed(s, now, d);
    var s1 := Refresh(s, now).value;
    assert s1.randomSwapMode;
    var dims := Dims(s1.board).value;
    assert Decide(s, now, d) == (s1, SendRandom(RandomMove(dims.0, dims.1, d)));
  }

  /** Every in-range choice of direction and first cell is drawn by some input, and on
      the last column a right swap exchanges the cell with itself. */
  lemma RandomMoveChoices(rows: nat, cols: nat, dir: nat, r1: nat, c1: nat)
    requires rows > 0 && cols > 0 && dir < 2 && r1 < rows && c1 < cols
    ensures var m := RandomMove(rows, cols, Draw(dir, r1, c1));
      && m.r1 == r1 && m.c1 == c1
      && (dir == 0 ==> m.r2 == r1 && m.c2 == (if c1 + 1 < cols then c1 + 1 else c1))
      && (dir == 1 ==> m.c2 == c1 && m.r2 == (if r1 + 1 < rows then r1 + 1 else r1))
  {
  }

  /** On a grid the finder could scan, the no-candidate shortcut gives what the scan gives. */
  lemma NoCandidatesAgreesWithFinder(b: Json)
    requires NoCandidates(b) && AsGrid(b).Some?
    ensures FirstSwap(AsGrid(b).value).None?
  {
    var g := AsGrid(b).value;
    if |g| > 0 {
      assert b.items[0] == JArr(g[0]);
    }
    assert Dims(b) == Some((|g|, Cols(g)));
    FirstSwapSpec(g);
  }

  /** A string, a row that is a string, or an empty first row of a board that is not a
      grid: no pair is tried, so the tick sleeps instead of raising. */
  lemma UnscannableBoardsSleep(s: SessionState)
    requires s.board != s.lastBoardState
    requires || s.board == JStr("a") || s.board == JArr([JStr("a")]) || s.board == JArr([JStr(""), JNum(5)])
             || s.board == JArr([JArr([]), JArr([JNum(1)])])
    ensures Normal(s) == (s, Sleep(0.5))
  {
  }

  lemma NormalIgnoresChainCount(s: SessionState, x: Option<Json>)
    ensures Normal(s.(chainCount := x)) == (Normal(s).0.(chainCount := x), Normal(s).1)
  {
    var sx := s.(chainCount := x);
    if s.board == s.lastBoardState {
      assert Normal(sx) == (sx, Sleep(0.3));
    } else if NoCandidates(s.board) {
      assert Normal(sx) == (sx, Sleep(0.5));
    } else if AsGrid(s.board).None? {
      assert Normal(sx) == (sx.(gameActive := false), Raise);
    } else {
      var m := FirstSwap(AsGrid(s.board).value);
      if m.None? {
        assert Normal(sx) == (sx, Sleep(0.5));
      } else {
        assert Normal(s) == (s.(lastBoardState := s.board), SendFound(m.value));
        assert Normal(sx) == (sx.(lastBoardState := s.board), SendFound(m.value));
      }
    }
  }

  lemma RandomTickIgnoresChainCount(s: SessionState, x: Option<Json>, d: Draw)
    ensures RandomTick(s.(chainCount := x), d) == (RandomTick(s, d).0.(chainCount := x), RandomTick(s, d).1)
  {
    var sx := s.(chainCount := x);
    assert CheckBoard(sx.validBoardReceived, sx.board) == CheckBoard(s.validBoardReceived, s.board);
    assert Dims(sx.board) == Dims(s.board);
    if CheckBoard(s.validBoardReceived, s.board).Unusable? && Dims(s.board).Some? {
      var dims := Dims(s.board).value;
      if !(dims.0 > 0 && dims.1 > 0) {
        assert RandomTick(s, d) == Normal(s);
        assert RandomTick(sx, d) == Normal(sx);
        NormalIgnoresChainCount(s, x);
      }
    }
  }

  /** The receiver's chain count plays no part in the sender's decisions. */
  lemma ChainCountIgnored(s: SessionState, x: Option<Json>, now: real, d: Draw)
    ensures Decide(s.(chainCount := x), now, d).1 == Decide(s, now, d).1
    ensures Decide(s.(chainCount := x), now, d).0 == Decide(s, now, d).0.(chainCount := x)
  {
    var sx := s.(chainCount := x);
    if s.gameActive && s.roundHasStarted {
      match Refresh(s, now) {
        case None =>
          assert Refresh(sx, now).None?;
        case Some(s1) =>
          assert Refresh(sx, now) == Some(s1.(chainCount := x));
          Refreshed(s, now, d);
          Refreshed(sx, now, d);
          NormalIgnoresChainCount(s1, x);
          RandomTickIgnoresChainCount(s1, x, d);
      }
    }
  }

  /** A board-progressed frame that does not parse, before any frame has bound
      `chain_count`, ends the game (UnboundLocalError at the comparison); one that parses
      keeps the game going exactly when its count compares with 0. */
  lemma ChainCountChecks(s: SessionState, f: Frame, parse: seq<byte> -> Option<Json>)
    requires s.gameActive && !f.Closed? && StartsWith(HexView(f), BoardProgressedPrefix)
    ensures s.chainCount.None? && ParseUpdatedBoard(HexView(f), parse).None? ==> !Receive(s, f, parse).gameActive
    ensures var u := ParseUpdatedBoard(HexView(f), parse);
      u.Some? ==> && Receive(s, f, parse).board == u.value.finalBoard
                  && Receive(s, f, parse).validBoardReceived
                  && (GreaterThan(u.value.chainsCount, 0).None? ==> !Receive(s, f, parse).gameActive)
  {
    var h := HexView(f);
    PrefixesExclusive(h);
    assert Receive(s, f, parse) == AfterInitial(s, h, parse);
    match ParseUpdatedBoard(h, parse) {
      case None =>
      case Some(u) =>
        var s1 := s.(board := u.finalBoard, chainCount := Some(u.chainsCount), validBoardReceived := true);
        MarkersEffect(s1, h);
        assert AfterInitial(s, h, parse)
               == if GreaterThan(u.chainsCount, 0).None? then s1.(gameActive := false) else Markers(s1, h);
    }
  }
}
