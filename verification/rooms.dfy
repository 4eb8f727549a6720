/**
 * One game room (class `GameRoom`, main.py:202-406) with its transport I/O
 * stripped: connections are opaque ids, the bot process is reduced to the
 * difficulty it was launched with, and every fresh `Game` takes the `pick`
 * that stands for its `random.choice`.
 */
module Rooms {
  import opened Wrappers
  import opened Board
  import opened Snakes
  import opened Games
  import Seqs

  /** An opaque connection (a WebSocket in the source). */
  type Conn = nat

  datatype Mode = TwoPlayer | VsAi

  /** The two game modes a `ready` message may ask for (main.py:298). */
  function ParseMode(s: string): (m: Option<Mode>)
    ensures m == Some(TwoPlayer) <==> s == "two_player"
    ensures m == Some(VsAi) <==> s == "vs_ai"
  {
    if s == "two_player" then Some(TwoPlayer)
    else if s == "vs_ai" then Some(VsAi)
    else None
  }

  /** A decoded player message; a missing JSON field is `None`. */
  datatype Msg =
    | MoveMsg(direction: Option<string>)
    | ReadyMsg(mode: Option<string>, name: Option<string>, aiDifficulty: Option<int>)
    | OtherMsg

  datatype Room = Room(
    id: int,
    game: Game,
    connections: map<Slot, Conn>,
    observers: seq<Conn>,
    ready: set<Slot>,
    pendingMode: Mode,
    bot: Option<int>,
    wins: Pair<nat>,
    names: Pair<string>)

  const DefaultNames: Pair<string> := Pair("Player 1", "Player 2")
  const NoWins: Pair<nat> := Pair(0, 0)

  /** The per-session bookkeeping is at its initial values and no game runs. */
  predicate Pristine(r: Room) {
    && !r.game.running
    && r.pendingMode == TwoPlayer
    && r.bot.None?
    && r.wins == NoWins
    && r.names == DefaultNames
  }

  /** `GameRoom.__init__` (main.py:205-216). */
  function NewRoom(id: int, pick: nat): (r: Room)
    ensures r.id == id && Pristine(r) && r.ready == {}
    ensures |r.connections| == 0 && r.observers == []
  {
    Room(id, NewGame(pick), map[], [], {}, TwoPlayer, None, NoWins, DefaultNames)
  }

  predicate IsEmpty(r: Room) {
    |r.connections| == 0
  }

  predicate IsNonEmpty(r: Room) {
    |r.connections| != 0
  }

  /** One player and no game running (main.py:221-224). */
  predicate IsWaiting(r: Room) {
    |r.connections| == 1 && !r.game.running
  }

  predicate IsFull(r: Room) {
    |r.connections| >= 2
  }

  predicate IsActive(r: Room) {
    r.game.running
  }

  /** `get_available_slot` (main.py:232-237): slot 1 if free, else slot 2 if free. */
  function AvailableSlot(r: Room): (s: Option<Slot>)
    ensures s.Some? ==> s.value !in r.connections
    ensures s == Some(2) ==> 1 in r.connections
    ensures s.None? <==> 1 in r.connections && 2 in r.connections
  {
    if 1 !in r.connections then Some(1)
    else if 2 !in r.connections then Some(2)
    else None
  }

  /** A room holds at most two players; it is full exactly when no slot is free. */
  lemma SlotsBound(r: Room)
    ensures |r.connections| <= 2
    ensures IsFull(r) <==> AvailableSlot(r).None?
    ensures IsWaiting(r) ==> AvailableSlot(r).Some?
  {
    SlotSetSize(r.connections.Keys);
  }

  /** `connect_player` (main.py:239-243) without the accept and the state broadcast. */
  function ConnectPlayer(r: Room, s: Slot, c: Conn): (r': Room)
    ensures s in r'.connections && r'.connections[s] == c
    ensures forall t :: t != s ==> (t in r'.connections <==> t in r.connections)
    ensures forall t :: t != s && t in r.connections ==> r'.connections[t] == r.connections[t]
    ensures r'.(connections := r.connections) == r
  {
    r.(connections := r.connections[s := c])
  }

  /** `connect_observer` (main.py:245-256) without the accept and the snapshot send. */
  function ConnectObserver(r: Room, c: Conn): (r': Room)
    ensures r'.observers == r.observers + [c]
    ensures r'.(observers := r.observers) == r
  {
    r.(observers := r.observers + [c])
  }

  /**
   * `disconnect_player` (main.py:258-270): the slot and its ready mark go,
   * the loop and the bot are stopped, and the session starts over with a
   * fresh idle game, zero wins, default names and two-player mode. The
   * other slot keeps its connection and its ready mark.
   */
  function DisconnectPlayer(r: Room, s: Slot, pick: nat): (r': Room)
    ensures r'.connections == r.connections - {s}
    ensures r'.ready == r.ready - {s}
    ensures Pristine(r')
    ensures r'.id == r.id && r'.observers == r.observers
  {
    Vacate(r, s, NewGame(pick))
  }

  /** The state change of `disconnect_player`, with the blank game it installs given. */
  function Vacate(r: Room, s: Slot, blank: Game): (r': Room)
    ensures r'.connections == r.connections - {s}
    ensures r'.ready == r.ready - {s}
    ensures r'.game == blank && (!blank.running ==> Pristine(r'))
    ensures r'.id == r.id && r'.observers == r.observers
  {
    r.(connections := r.connections - {s},
       ready := r.ready - {s},
       bot := None,
       game := blank,
       pendingMode := TwoPlayer,
       wins := NoWins,
       names := DefaultNames)
  }

  /** Nothing of the old session survives a disconnect except the remaining connections. */
  lemma DisconnectIsFreshRoom(r: Room, s: Slot, pick: nat)
    ensures DisconnectPlayer(r, s, pick)
         == NewRoom(r.id, pick).(connections := r.connections - {s}, observers := r.observers, ready := r.ready - {s})
  {
  }

  /** `disconnect_observer` (main.py:283-286): drops the first occurrence, if any. */
  function DisconnectObserver(r: Room, c: Conn): (r': Room)
    ensures c in r.observers ==> |r'.observers| == |r.observers| - 1
    ensures c in r.observers ==> Seqs.RemovedFirst(r.observers, c, r'.observers)
    ensures c !in r.observers ==> r' == r
    ensures r'.(observers := r.observers) == r
  {
    r.(observers := Seqs.RemoveFirst(r.observers, c))
  }

  /** `max(1, min(10, d))` (main.py:306). */
  function Clamp(d: int): (r: int)
    ensures 1 <= r <= 10
    ensures 1 <= d <= 10 ==> r == d
    ensures d < 1 ==> r == 1
    ensures d > 10 ==> r == 10
  {
    var low := if d < 10 then d else 10;
    if 1 > low then 1 else low
  }

  /** `start_game` (main.py:349-356) without the broadcasts: a fresh game, running. */
  function StartGame(r: Room, pick: nat): (r': Room)
    ensures r'.game.running && r'.game.winner.None?
    ensures r'.game.snakes.one.alive && r'.game.snakes.two.alive
    ensures r'.(game := r.game) == r
  {
    r.(game := StartedGame(pick))
  }

  /**
   * The `ready` branch of `handle_message` (main.py:295-321). The mode is
   * latched only by the first ready of a cycle and only when it is one of
   * the two known modes; a `vs_ai` request launches a bot at a clamped
   * difficulty unless one is already supervised (`spawned` says whether
   * the launch succeeded); the game starts once both slots are ready.
   */
  function Ready(r: Room, s: Slot, mode: Option<string>, name: Option<string>, difficulty: Option<int>,
                 spawned: bool, pick: nat): (r': Room)
    ensures r'.ready == r.ready + {s}
    ensures r'.names.Get(s) == name.GetOr(DefaultNames.Get(s))
    ensures r'.names.Get(Other(s)) == r.names.Get(Other(s))
    ensures r.ready != {} ==> r'.pendingMode == r.pendingMode
    ensures r.ready == {} && ParseMode(mode.GetOr("two_player")).Some? ==>
              r'.pendingMode == ParseMode(mode.GetOr("two_player")).value
    ensures ParseMode(mode.GetOr("two_player")).None? ==> r'.pendingMode == r.pendingMode
    ensures r.bot.Some? ==> r'.bot == r.bot
    ensures r.bot.None? && r'.bot.Some? ==> mode == Some("vs_ai") && spawned && r'.bot.value == Clamp(difficulty.GetOr(5))
    ensures r.bot.None? && mode == Some("vs_ai") && spawned ==> r'.bot.Some?
    ensures !spawned ==> r'.bot == r.bot
    ensures r'.bot == LaunchBot(r.bot, mode, difficulty, spawned)
    ensures r.game.running ==> r'.game == r.game
    ensures !r.game.running && r'.ready != {1, 2} ==> r'.game == r.game
    ensures !r.game.running ==> (r'.game.running <==> r'.ready == {1, 2})
    ensures !r.game.running && r'.game.running ==> r'.game == StartedGame(pick)
    ensures r'.id == r.id && r'.connections == r.connections && r'.observers == r.observers && r'.wins == r.wins
  {
    var r1 := r.(pendingMode := LatchMode(r.ready, r.pendingMode, mode),
                 names := r.names.Set(s, name.GetOr(DefaultNames.Get(s))),
                 bot := LaunchBot(r.bot, mode, difficulty, spawned),
                 ready := r.ready + {s});
    SlotSetSize(r1.ready);
    if |r1.ready| >= 2 && !r.game.running then StartGame(r1, pick) else r1
  }

  /**
   * One ready cycle: in an idle room with nobody ready, the first ready
   * leaves the game alone and the second, from the other slot, starts it
   * in the mode the first one latched.
   */
  lemma ReadyCycleStartsGame(r: Room, s: Slot, mode1: Option<string>, mode2: Option<string>,
                             name1: Option<string>, name2: Option<string>, d1: Option<int>, d2: Option<int>,
                             spawned1: bool, spawned2: bool, pick1: nat, pick2: nat)
    requires !r.game.running && r.ready == {}
    ensures var r1 := Ready(r, s, mode1, name1, d1, spawned1, pick1);
            var r2 := Ready(r1, Other(s), mode2, name2, d2, spawned2, pick2);
            && r1.ready == {s} && r1.game == r.game
            && r2.ready == {1, 2} && r2.game == StartedGame(pick2)
            && r2.pendingMode == LatchMode({}, r.pendingMode, mode1)
  {
    var r1 := Ready(r, s, mode1, name1, d1, spawned1, pick1);
    assert r1.ready == {s};
    assert Other(s) !in r1.ready;
    assert {s} + {Other(s)} == {1, 2};
  }

  /** The mode of a `ready` (default `two_player`) is latched by the first ready of a cycle, if known. */
  function LatchMode(ready: set<Slot>, pending: Mode, mode: Option<string>): (m: Mode)
    ensures ready != {} ==> m == pending
    ensures ready == {} && ParseMode(mode.GetOr("two_player")).Some? ==> m == ParseMode(mode.GetOr("two_player")).value
    ensures ParseMode(mode.GetOr("two_player")).None? ==> m == pending
  {
    var asked := ParseMode(mode.GetOr("two_player"));
    if |ready| == 0 && asked.Some? then asked.value else pending
  }

  /**
   * `_spawn_bot` as seen by the room: a `vs_ai` ready with no bot
   * supervised launches one at the clamped difficulty (default 5); `spawned`
   * says whether the launch succeeded.
   */
  function LaunchBot(bot: Option<int>, mode: Option<string>, difficulty: Option<int>, spawned: bool): (b: Option<int>)
    ensures bot.Some? ==> b == bot
    ensures bot.None? && b.Some? ==> mode == Some("vs_ai") && spawned && b.value == Clamp(difficulty.GetOr(5))
    ensures bot.None? && mode == Some("vs_ai") && spawned ==> b.Some?
  {
    if mode == Some("vs_ai") && bot.None? && spawned then Some(Clamp(difficulty.GetOr(5))) else bot
  }

  /**
   * `handle_message` (main.py:288-321): a `move` queues a turn for the
   * sender's snake while the game runs and the direction is one of the
   * four names; a `ready` runs the ready cycle; anything else is ignored.
   */
  function HandleMessage(r: Room, s: Slot, msg: Msg, spawned: bool, pick: nat): (r': Room)
    ensures msg.MoveMsg? && !r.game.running ==> r' == r
    ensures msg.MoveMsg? && (msg.direction.None? || ParseDir(msg.direction.value).None?) ==> r' == r
    ensures msg.MoveMsg? && r.game.running && msg.direction.Some? && ParseDir(msg.direction.value).Some? ==>
              && r'.game.snakes.Get(s) == QueueDirection(r.game.snakes.Get(s), ParseDir(msg.direction.value).value)
              && r'.game.snakes.Get(Other(s)) == r.game.snakes.Get(Other(s))
              && r'.(game := r.game) == r
    ensures msg.ReadyMsg? ==> r' == Ready(r, s, msg.mode, msg.name, msg.aiDifficulty, spawned, pick)
    ensures msg.OtherMsg? ==> r' == r
    ensures r'.id == r.id && r'.connections == r.connections && r'.observers == r.observers && r'.wins == r.wins
  {
    match msg
    case MoveMsg(direction) =>
      if r.game.running && direction.Some? && ParseDir(direction.value).Some? then
        var snake := QueueDirection(r.game.snakes.Get(s), ParseDir(direction.value).value);
        r.(game := r.game.(snakes := r.game.snakes.Set(s, snake)))
      else r
    case ReadyMsg(mode, name, difficulty) =>
      Ready(r, s, mode, name, difficulty, spawned, pick)
    case OtherMsg =>
      r
  }

  /**
   * One iteration of `game_loop` (main.py:362-378) without the broadcasts
   * and the sleep: the game is updated, and on the tick it ends the
   * winner's counter goes up by one (nobody's on a draw) and the ready set
   * is cleared for the next cycle.
   */
  function Tick(r: Room, pick1: nat, pick2: nat): (r': Room)
    ensures !r.game.running ==> r' == r
    ensures r.game.running ==> r'.game == Update(r.game, pick1, pick2)
    ensures r.game.running && r'.game.running ==> r'.wins == r.wins && r'.ready == r.ready
    ensures r.game.running && !r'.game.running ==> r'.ready == {}
    ensures r.game.running && !r'.game.running ==> forall t: Slot ::
              r'.wins.Get(t) == r.wins.Get(t) + (if r'.game.winner == Some(t) then 1 else 0)
    ensures r'.id == r.id && r'.connections == r.connections && r'.observers == r.observers
    ensures r'.names == r.names && r'.pendingMode == r.pendingMode && r'.bot == r.bot
  {
    if !r.game.running then r
    else
      var g := Update(r.game, pick1, pick2);
      if g.running then r.(game := g)
      else
        var wins := if g.winner.Some? then r.wins.Set(g.winner.value, r.wins.Get(g.winner.value) + 1) else r.wins;
        r.(game := g, wins := wins, ready := {})
  }

  /**
   * The slots whose send failed, in slot order (`broadcast` meets them in the
   * dict's insertion order; the outcome depends only on which slots failed).
   */
  function FailedSlots(r: Room, failed: set<Conn>): (ss: seq<Slot>)
    ensures forall t :: t in ss <==> t in r.connections && r.connections[t] in failed
    ensures forall i, j :: 0 <= i < j < |ss| ==> ss[i] != ss[j]
  {
    (if 1 in r.connections && r.connections[1] in failed then [1 as Slot] else [])
    + (if 2 in r.connections && r.connections[2] in failed then [2 as Slot] else [])
  }

  /** A room is left empty by a departure exactly when the other slot was free already. */
  lemma DisconnectEmpties(r: Room, s: Slot, pick: nat)
    ensures IsEmpty(DisconnectPlayer(r, s, pick)) <==> Other(s) !in r.connections
    ensures Other(s) in r.connections ==> IsWaiting(DisconnectPlayer(r, s, pick))
  {
    RemainingSlots(r.connections, s);
  }

  lemma RemainingSlots(m: map<Slot, Conn>, s: Slot)
    ensures Other(s) in m ==> |m - {s}| == 1
    ensures Other(s) !in m ==> |m - {s}| == 0
  {
    var rest := m - {s};
    forall t: Slot | t in rest.Keys
      ensures t == Other(s)
    {
    }
    if Other(s) in m {
      assert rest.Keys == {Other(s)};
    } else {
      assert rest.Keys == {};
    }
  }

  /**
   * Disconnects the given players one after the other; every departure
   * installs `blank`, as `DisconnectPlayer(_, _, pick)` installs `NewGame(pick)`.
   */
  function DisconnectPlayers(r: Room, ss: seq<Slot>, blank: Game): Room
    decreases |ss|
  {
    if |ss| == 0 then r else DisconnectPlayers(Vacate(r, ss[0], blank), ss[1..], blank)
  }

  /** Disconnects the given observers one after the other. */
  function DisconnectObservers(r: Room, cs: seq<Conn>): Room
    decreases |cs|
  {
    if |cs| == 0 then r else DisconnectObservers(DisconnectObserver(r, cs[0]), cs[1..])
  }

  lemma {:induction false} DisconnectObserversRemovesEach(r: Room, cs: seq<Conn>)
    ensures DisconnectObservers(r, cs) == r.(observers := Seqs.RemoveEach(r.observers, cs))
    decreases |cs|
  {
    if |cs| > 0 {
      DisconnectObserversRemovesEach(DisconnectObserver(r, cs[0]), cs[1..]);
    }
  }

  /** The slots a list names, as a set. */
  function SlotsOf(ss: seq<Slot>): (gone: set<Slot>)
    ensures forall t :: t in gone <==> t in ss
  {
    set t: Slot | t in ss
  }

  lemma SlotsOfCons(ss: seq<Slot>)
    requires |ss| > 0
    ensures SlotsOf(ss) == {ss[0]} + SlotsOf(ss[1..])
  {
    assert forall t :: t in ss <==> t == ss[0] || t in ss[1..];
  }

  /**
   * Disconnecting a non-empty list of players removes exactly them and their
   * ready marks and leaves the session pristine.
   */
  lemma {:induction false} DisconnectPlayersEffect(r: Room, ss: seq<Slot>, blank: Game)
    requires |ss| > 0 && !blank.running
    ensures var r' := DisconnectPlayers(r, ss, blank);
            && r'.connections == r.connections - SlotsOf(ss)
            && r'.ready == r.ready - SlotsOf(ss)
            && Pristine(r') && r'.id == r.id && r'.observers == r.observers
    decreases |ss|
  {
    var r1 := Vacate(r, ss[0], blank);
    SlotsOfCons(ss);
    if |ss| > 1 {
      DisconnectPlayersEffect(r1, ss[1..], blank);
      MinusTwice(r.connections, {ss[0]}, SlotsOf(ss[1..]));
    } else {
      assert SlotsOf(ss[1..]) == {};
    }
  }

  lemma MinusTwice<K, V>(m: map<K, V>, a: set<K>, b: set<K>)
    ensures m - a - b == m - (a + b)
  {
    assert (m - a - b).Keys == (m - (a + b)).Keys;
  }

  /**
   * `broadcast` (main.py:385-406): the message goes to every player and
   * observer; the ones whose send failed are collected and only then
   * disconnected, so one failure never stops delivery to the others. A
   * failed player resets the whole session; a failed observer is simply
   * dropped.
   */
  function Broadcast(r: Room, failed: set<Conn>, pick: nat): (r': Room)
    ensures r'.observers == Seqs.Without(r.observers, failed)
    ensures forall t :: t in r'.connections <==> t in r.connections && r.connections[t] !in failed
    ensures forall t :: t in r'.connections ==> r'.connections[t] == r.connections[t]
    ensures (exists t :: t in r.connections && r.connections[t] in failed) ==>
              && Pristine(r')
              && forall t :: t in r'.ready <==> t in r.ready && !(t in r.connections && r.connections[t] in failed)
    ensures (forall t :: t in r.connections ==> r.connections[t] !in failed) ==>
              r' == r.(observers := Seqs.Without(r.observers, failed))
    ensures r'.id == r.id
  {
    BroadcastFacts(r, failed, pick);
    DisconnectObservers(DisconnectPlayers(r, FailedSlots(r, failed), NewGame(pick)), Seqs.Within(r.observers, failed))
  }

  lemma BroadcastFacts(r: Room, failed: set<Conn>, pick: nat)
    ensures var afterPlayers := DisconnectPlayers(r, FailedSlots(r, failed), NewGame(pick));
            var r' := DisconnectObservers(afterPlayers, Seqs.Within(r.observers, failed));
            && r' == afterPlayers.(observers := Seqs.Without(r.observers, failed))
            && afterPlayers.observers == r.observers
            && (|FailedSlots(r, failed)| == 0 ==> afterPlayers == r)
            && (|FailedSlots(r, failed)| > 0 ==>
                  && (forall t :: t in afterPlayers.connections <==> t in r.connections && r.connections[t] !in failed)
                  && (forall t :: t in afterPlayers.connections ==> afterPlayers.connections[t] == r.connections[t])
                  && Pristine(afterPlayers) && afterPlayers.id == r.id
                  && forall t :: t in afterPlayers.ready <==> t in r.ready && !(t in r.connections && r.connections[t] in failed))
  {
    var ss := FailedSlots(r, failed);
    var afterPlayers := DisconnectPlayers(r, ss, NewGame(pick));
    var dropped := Seqs.Within(r.observers, failed);
    if |ss| > 0 {
      DisconnectPlayersEffect(r, ss, NewGame(pick));
    }
    DisconnectObserversRemovesEach(afterPlayers, dropped);
    Seqs.RemoveCollectedIsWithout(r.observers, failed);
  }
}
