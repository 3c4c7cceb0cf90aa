/**
 * Account bookkeeping of eldergame.py: building the account records from the
 * bearer tokens (`create_accounts`) and the retry loop of `run_account`, which
 * keeps a window of the 5 most recent room ids as a duplicate filter and counts
 * completed games up to `play_count`. Room lookup, joining and the game itself are
 * network calls; their results are the inputs of each attempt.
 */
module Accounts {
  /** The fixed part of every account (`ACCOUNT_TEMPLATE`). */
  const TemplateCookie: string :=
    "connect.sid=s%3ARD5lENQIF3X0XK6BqVnOzyRUwJ8uhbuo.LGq23RU4UzjJCaWyM6T7%2FvMWwzFhoJOi%2BWHphHighAQ"
  const TemplatePlayerName: string := "Feral (\U{2022}\U{1D25}\U{2022})"
  const TemplateSkinId: int := 7
  const TemplatePlatform: string := "Line"

  datatype Account = Account(
    cookie: string, playerName: string, playerSkinId: int, platform: string,
    accessToken: string, accountId: int)

  /** A copy of the template with the token and the 1-based id added. */
  predicate IsAccountFor(a: Account, token: string, id: int) {
    && a.cookie == TemplateCookie && a.playerName == TemplatePlayerName
    && a.playerSkinId == TemplateSkinId && a.platform == TemplatePlatform
    && a.accessToken == token && a.accountId == id
  }

  /** `create_accounts`, given the tokens `load_bearer_tokens` read: one account per
      token, in order, numbered from 1. */
  method CreateAccounts(tokens: seq<string>) returns (accounts: seq<Account>)
    ensures |accounts| == |tokens|
    ensures forall i :: 0 <= i < |tokens| ==> IsAccountFor(accounts[i], tokens[i], i + 1)
  {
    accounts := [];
    for i := 0 to |tokens|
      invariant |accounts| == i
      invariant forall j :: 0 <= j < i ==> IsAccountFor(accounts[j], tokens[j], j + 1)
    {
      var account := Account(TemplateCookie, TemplatePlayerName, TemplateSkinId, TemplatePlatform, tokens[i], i + 1);
      accounts := accounts + [account];
    }
  }

  /** Account ids are distinct, so each names exactly one token. */
  lemma AccountIdsDistinct(accounts: seq<Account>, tokens: seq<string>, i: int, j: int)
    requires |accounts| == |tokens|
    requires forall k :: 0 <= k < |tokens| ==> IsAccountFor(accounts[k], tokens[k], k + 1)
    requires 0 <= i < |accounts| && 0 <= j < |accounts| && i != j
    ensures accounts[i].accountId != accounts[j].accountId
    ensures 1 <= accounts[i].accountId <= |tokens|
  {
  }

  // ---------------------------------------------------------------- run_account

  const RecentRooms: nat := 5
  const DefaultPlayCount: int := 5

  /** The last `n` elements of `s` (all of it when shorter). */
  function LastN<T>(s: seq<T>, n: nat): (r: seq<T>)
    ensures |r| == if |s| <= n then |s| else n
    ensures r == s[|s| - |r|..]
  {
    if |s| <= n then s else s[|s| - n..]
  }

  /** `last_room_ids.append(id)`, then `pop(0)` when longer than 5. */
  function PushRecent(ids: seq<string>, id: string): seq<string> {
    var w := ids + [id];
    if |w| > RecentRooms then w[1..] else w
  }

  predicate NoDuplicates<T(==)>(s: seq<T>) {
    forall i, j :: 0 <= i < j < |s| ==> s[i] != s[j]
  }

  /** The window after a push is the window of the longer history: it always holds the
      most recent (at most 5) accepted ids, oldest first, and the oldest is evicted first. */
  lemma PushRecentIsLastN(history: seq<string>, id: string)
    ensures PushRecent(LastN(history, RecentRooms), id) == LastN(history + [id], RecentRooms)
  {
    var h := history + [id];
    if |history| > RecentRooms {
      assert LastN(history, RecentRooms) + [id] == h[|h| - RecentRooms - 1..];
    }
  }

  lemma PushRecentBound(ids: seq<string>, id: string)
    requires |ids| <= RecentRooms
    ensures |PushRecent(ids, id)| <= RecentRooms
    ensures PushRecent(ids, id)[|PushRecent(ids, id)| - 1] == id
  {
  }

  lemma {:induction false} PushRecentNoDuplicates(ids: seq<string>, id: string)
    requires NoDuplicates(ids) && id !in ids
    ensures NoDuplicates(PushRecent(ids, id))
  {
    var w := ids + [id];
    assert NoDuplicates(w) by {
      forall i, j | 0 <= i < j < |w|
        ensures w[i] != w[j]
      {
        if j == |ids| {
          assert w[i] == ids[i];
        } else {
          assert w[i] == ids[i] && w[j] == ids[j];
        }
      }
    }
    if |w| > RecentRooms {
      forall i, j | 0 <= i < j < |w| - 1
        ensures w[1..][i] != w[1..][j]
      {
        assert w[1..][i] == w[i + 1] && w[1..][j] == w[j + 1];
      }
    }
  }

  /** What `get_or_create_room` produced: nothing (`None` or an empty dict), a room
      without `roomId` (KeyError), or a room with an id; `addressed` says whether it also
      has the `publicAddress` and `processId` the socket URL needs. */
  datatype RoomLookup = NoRoom | RoomWithoutId | Room(roomId: string, addressed: bool)

  /** `join_room` gave nothing or no `sessionId`, or a session. */
  datatype JoinResult = JoinFailed | Joined

  /** `play_game` returned, or raised. */
  datatype GameResult = Completed | GameRaised

  datatype AttemptInput = AttemptInput(room: RoomLookup, join: JoinResult, game: GameResult)

  datatype Outcome = NoRooms | Duplicate | NotJoined | Played | GameFailed | Errored

  datatype Supervisor = Supervisor(lastRoomIds: seq<string>, successfulPlays: nat)

  /** One iteration of the `while successful_plays < play_count` loop. */
  function AttemptStep(st: Supervisor, input: AttemptInput): (Supervisor, Outcome) {
    match input.room
    case NoRoom => (st, NoRooms)
    case RoomWithoutId => (st, Errored)
    case Room(id, addressed) =>
      if id in st.lastRoomIds then (st, Duplicate)
      else
        var st1 := st.(lastRoomIds := PushRecent(st.lastRoomIds, id));
        if input.join == JoinFailed then (st1, NotJoined)
        else if !addressed then (st1, Errored)
        else if input.game == GameRaised then (st1, GameFailed)
        else (st1.(successfulPlays := st.successfulPlays + 1), Played)
  }

  /** The id an attempt adds to the window, if any. */
  function Accepted(input: AttemptInput, st: Supervisor): seq<string> {
    if input.room.Room? && input.room.roomId !in st.lastRoomIds then [input.room.roomId] else []
  }

  /** A room already in the window is skipped without joining and without any change;
      otherwise its id is pushed; the counter grows by one exactly on a completed game. */
  lemma AttemptStepEffect(st: Supervisor, input: AttemptInput)
    ensures var (t, o) := AttemptStep(st, input);
      && (input.room.Room? && input.room.roomId in st.lastRoomIds ==> o == Duplicate && t == st)
      && (Accepted(input, st) != [] ==> t.lastRoomIds == PushRecent(st.lastRoomIds, input.room.roomId))
      && (Accepted(input, st) == [] ==> t.lastRoomIds == st.lastRoomIds)
      && t.successfulPlays == st.successfulPlays + (if o == Played then 1 else 0)
      && (o == Played <==> input.room.Room? && input.room.roomId !in st.lastRoomIds
                           && input.room.addressed && input.join == Joined && input.game == Completed)
  {
  }

  /** The loop over a sequence of attempt inputs, stopping once `play_count` is reached
      (or when the inputs run out). */
  function RunAttempts(st: Supervisor, playCount: int, inputs: seq<AttemptInput>): (Supervisor, seq<Outcome>)
    decreases |inputs|
  {
    if |inputs| == 0 || st.successfulPlays >= playCount then (st, [])
    else
      var step := AttemptStep(st, inputs[0]);
      var rest := RunAttempts(step.0, playCount, inputs[1..]);
      (rest.0, [step.1] + rest.1)
  }

  function CountPlayed(os: seq<Outcome>): nat {
    if |os| == 0 then 0 else (if os[0] == Played then 1 else 0) + CountPlayed(os[1..])
  }

  /** The counter ends at the start value plus the completed games, never passes
      `play_count`, and the loop consumes an input only while it is below it. */
  lemma {:induction false} RunAttemptsCount(st: Supervisor, playCount: int, inputs: seq<AttemptInput>)
    requires st.successfulPlays <= playCount
    ensures var (t, os) := RunAttempts(st, playCount, inputs);
      && t.successfulPlays == st.successfulPlays + CountPlayed(os)
      && t.successfulPlays <= playCount
      && |os| <= |inputs|
      && (|os| < |inputs| ==> t.successfulPlays == playCount)
    decreases |inputs|
  {
    if |inputs| > 0 && st.successfulPlays < playCount {
      var step := AttemptStep(st, inputs[0]);
      AttemptStepEffect(st, inputs[0]);
      RunAttemptsCount(step.0, playCount, inputs[1..]);
      var rest := RunAttempts(step.0, playCount, inputs[1..]);
      assert ([step.1] + rest.1)[1..] == rest.1;
    }
  }

  class AccountSupervisor {
    var lastRoomIds: seq<string>
    var successfulPlays: nat
    const playCount: int
    /** Every room id ever appended to `last_room_ids`, oldest first. */
    ghost var accepted: seq<string>

    ghost predicate Valid()
      reads this
    {
      lastRoomIds == LastN(accepted, RecentRooms) && NoDuplicates(lastRoomIds)
    }

    function State(): Supervisor
      reads this
    {
      Supervisor(lastRoomIds, successfulPlays)
    }

    /** `last_room_ids = []`, `successful_plays = 0`; `play_count` defaults to 5. */
    constructor(playCount: int := DefaultPlayCount)
      ensures Valid() && State() == Supervisor([], 0) && this.playCount == playCount && accepted == []
    {
      lastRoomIds, successfulPlays := [], 0;
      this.playCount := playCount;
      accepted := [];
    }

    method Attempt(input: AttemptInput) returns (outcome: Outcome)
      requires Valid()
      modifies this
      ensures Valid()
      ensures (State(), outcome) == AttemptStep(old(State()), input)
      ensures accepted == old(accepted) + Accepted(input, old(State()))
    {
      if input.room.NoRoom? {
        return NoRooms;
      }
      if input.room.RoomWithoutId? {
        return Errored;
      }
      var id := input.room.roomId;
      if id in lastRoomIds {
        return Duplicate;
      }
      PushRecentIsLastN(accepted, id);
      PushRecentNoDuplicates(lastRoomIds, id);
      lastRoomIds := lastRoomIds + [id];
      if |lastRoomIds| > RecentRooms {
        lastRoomIds := lastRoomIds[1..];
      }
      accepted := accepted + [id];
      if input.join == JoinFailed {
        return NotJoined;
      }
      if !input.room.addressed {
        return Errored;
      }
      if input.game == GameRaised {
        return GameFailed;
      }
      successfulPlays := successfulPlays + 1;
      return Played;
    }

    /** `run_account`'s loop over the attempts' inputs. */
    method Run(inputs: seq<AttemptInput>) returns (outcomes: seq<Outcome>)
      requires Valid()
      modifies this
      ensures Valid()
      ensures (State(), outcomes) == RunAttempts(old(State()), playCount, inputs)
    {
      ghost var start := State();
      outcomes := [];
      var i := 0;
      assert inputs[0..] == inputs;
      assert [] + RunAttempts(start, playCount, inputs).1 == RunAttempts(start, playCount, inputs).1;
      while i < |inputs| && successfulPlays < playCount
        invariant 0 <= i <= |inputs|
        invariant Valid()
        invariant RunAttempts(start, playCount, inputs)
                  == (RunAttempts(State(), playCount, inputs[i..]).0, outcomes + RunAttempts(State(), playCount, inputs[i..]).1)
        decreases |inputs| - i
      {
        ghost var before := State();
        var o := Attempt(inputs[i]);
        assert inputs[i..][1..] == inputs[i + 1..];
        ghost var rest := RunAttempts(State(), playCount, inputs[i + 1..]);
        assert RunAttempts(before, playCount, inputs[i..]) == (rest.0, [o] + rest.1);
        assert outcomes + ([o] + rest.1) == (outcomes + [o]) + rest.1;
        outcomes := outcomes + [o];
        i := i + 1;
      }
      assert outcomes + [] == outcomes;
    }
  }
}
