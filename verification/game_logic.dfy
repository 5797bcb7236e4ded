/**
 * The game logic: the lobbies and the games in progress, each under its game name, and the
 * handling of one client message against them. A game name is never both a lobby and a game.
 *
 * The functions describe the two tables as values (a lobby by its players, a game by its
 * colours and state); the class GameLogic keeps the lobby and game objects, as the Java
 * class does, and its methods are proved to change them as the functions say.
 *
 * Three choices Java leaves to hash codes or to the run are parameters: the state a newly
 * started game starts in, the engine that decodes and applies actions, and the order in
 * which a HashMap keyed by colour lists its entries.
 */
module Sessions {
  import opened Wrappers
  import opened Collections
  import opened Zones
  import opened Game
  import opened JavaStrings
  import opened ServerActions
  import opened ActionData
  import opened OnGoingGames
  import opened Lobbies

  /** MINIMUM_PLAYERS: a lobby needs that many players to be started. */
  const MinimumPlayers := 2

  /** A game by its players and its state. */
  datatype GameValue = GameValue(players: map<PlayerColor, string>, state: GameState) {
    /** A game in the table: a valid state that has not ended, and one colour per player. */
    predicate Valid() {
      state.Valid() && state.nextAction != EndGame && Injective(players)
    }
  }

  /** The two tables of the game logic, as values. */
  datatype Registry = Registry(lobbies: map<string, seq<string>>, games: map<string, GameValue>) {
    predicate Valid() {
      && lobbies.Keys !! games.Keys
      && (forall n :: n in lobbies ==> IsRoster(lobbies[n]))
      && (forall n :: n in games ==> games[n].Valid())
    }

    /** Apart from the given name, the two registries have the same lobbies and the same games. */
    predicate AgreesBeyond(other: Registry, name: string) {
      lobbies - {name} == other.lobbies - {name} && games - {name} == other.games - {name}
    }
  }

  /** The tables once a message is handled, and the reply (None for Java's null) or the exception that escapes. */
  datatype Outcome = Outcome(registry: Registry, reply: Result<Option<GameActionData>, Thrown>)

  /** A state a game may start in: what placing the starting tile leaves. */
  predicate Started(start: GameState) {
    start.Valid() && start.nextAction == PlaceTile
  }

  /** An order in which a HashMap keyed by colour lists its keys: every colour once. */
  predicate ColorOrder(order: seq<PlayerColor>) {
    |order| == |AllColors| && NoDuplicates(order) && forall c: PlayerColor :: c in order
  }

  /** values() of a colour-keyed map listed in that order: at most one name per colour. */
  function RosterOf(players: map<PlayerColor, string>, order: seq<PlayerColor>): (r: seq<string>)
    ensures |r| <= |order|
  {
    if order == [] then []
    else
      var rest := RosterOf(players, order[1..]);
      if order[0] in players then [players[order[0]]] + rest else rest
  }

  /** The names listed are those of the colours of the order that the map holds. */
  lemma {:induction false} RosterOfMembers(players: map<PlayerColor, string>, order: seq<PlayerColor>)
    ensures forall x :: x in RosterOf(players, order) <==> exists c :: c in order && c in players && players[c] == x
  {
    if order != [] {
      RosterOfMembers(players, order[1..]);
      assert forall c :: c in order <==> c == order[0] || c in order[1..];
    }
  }

  /** A game's players listed in a colour order form a roster: every player once. */
  lemma {:induction false} RosterOfIsRoster(players: map<PlayerColor, string>, order: seq<PlayerColor>)
    requires NoDuplicates(order) && Injective(players)
    ensures NoDuplicates(RosterOf(players, order))
  {
    if order != [] {
      NoDuplicatesTail(order);
      RosterOfIsRoster(players, order[1..]);
      if order[0] in players {
        RosterOfMembers(players, order[1..]);
        NoDuplicatesCons(players[order[0]], RosterOf(players, order[1..]));
      }
    }
  }

  /** The lobby a game becomes: its players in the colour order, each once. */
  lemma DowngradedRoster(game: GameValue, order: seq<PlayerColor>)
    requires game.Valid() && ColorOrder(order)
    ensures IsRoster(RosterOf(game.players, order))
    ensures forall x :: x in RosterOf(game.players, order) <==> x in game.players.Values
  {
    RosterOfIsRoster(game.players, order);
    RosterOfMembers(game.players, order);
  }

  // ---------------------------------------------------------------------------------------
  // The tables, message by message

  /** startGameWithLobby: the lobby's players become a game under the same name, with their colours. */
  function Promoted(reg: Registry, name: string, start: GameState): (r: Registry)
    requires reg.Valid() && name in reg.lobbies && Started(start)
    ensures r.Valid()
    ensures r.lobbies == reg.lobbies - {name} && name in r.games && r.games.Keys == reg.games.Keys + {name}
    ensures Success(r.games[name].players) == ColorsOf(reg.lobbies[name]) && r.games[name].state == start
    ensures forall n :: n in reg.games ==> r.games[n] == reg.games[n]
  {
    ColorsOfDistinctNames(reg.lobbies[name]);
    var colors := ColorsOf(reg.lobbies[name]).value;
    Registry(reg.lobbies - {name}, reg.games[name := GameValue(colors, start)])
  }

  /**
   * downgradeGameToLobby: the game becomes a lobby under the same name, holding its players
   * in the colour order. The state the game was in is dropped.
   */
  function Downgraded(reg: Registry, name: string, order: seq<PlayerColor>): (r: Registry)
    requires name in reg.games && reg.lobbies.Keys !! reg.games.Keys
    ensures r.games == reg.games - {name} && r.lobbies == reg.lobbies[name := RosterOf(reg.games[name].players, order)]
    ensures r.lobbies.Keys !! r.games.Keys
  {
    Registry(reg.lobbies[name := RosterOf(reg.games[name].players, order)], reg.games - {name})
  }

  /** A downgrade keeps the tables valid, whatever the state of the game was. */
  lemma DowngradedIsValid(reg: Registry, name: string, order: seq<PlayerColor>)
    requires name in reg.games && ColorOrder(order)
    requires reg.lobbies.Keys !! reg.games.Keys && Injective(reg.games[name].players)
    requires forall n :: n in reg.lobbies ==> IsRoster(reg.lobbies[n])
    requires forall n :: n in reg.games && n != name ==> reg.games[n].Valid()
    ensures Downgraded(reg, name, order).Valid()
  {
    RosterOfIsRoster(reg.games[name].players, order);
  }

  /**
   * GAMEJOIN: exactly two arguments, the game and the name; a connection that is already in a
   * game is refused; an existing lobby adds the player; a game already running refuses; any
   * other name opens a lobby with the player alone, and the reply gives the connection its
   * context.
   */
  function JoinGame(reg: Registry, data: seq<string>, ctx: Option<GamePlayerData>): (r: Outcome)
    requires reg.Valid()
    ensures r.registry.Valid() && r.registry.games == reg.games
    ensures r.reply.Success? && r.reply.value.Some? && !r.reply.value.value.shouldBeBroadcasted
    ensures |data| != 2 ==> r == Outcome(reg, Success(Some(Reply(GameJoinDeny, "INVALID_DATA"))))
    ensures |data| == 2 && ctx.Some? ==> r == Outcome(reg, Success(Some(Reply(GameJoinDeny, "ALREADY_IN_GAME"))))
    ensures forall n :: n in reg.lobbies && (|data| != 2 || n != data[0]) ==> n in r.registry.lobbies && r.registry.lobbies[n] == reg.lobbies[n]
    ensures forall n :: n in r.registry.lobbies && n !in reg.lobbies ==>
      && |data| == 2 && ctx.None? && n == data[0] && n !in reg.games
      && r.registry.lobbies[n] == [data[1]]
      && r.reply.value.value == GameActionData(GameJoinAccept, Some(data[1]), Some(GamePlayerData(data[0], data[1])), false)
    ensures r.reply.value.value.ctx.Some? ==> data[0] !in reg.lobbies && data[0] in r.registry.lobbies
    ensures |data| == 2 && ctx.None? && data[0] in reg.lobbies ==>
      var j := AddedPlayer(reg.lobbies[data[0]], data[1]);
      r == Outcome(Registry(reg.lobbies[data[0] := j.players], reg.games), Success(Some(j.reply.AsGameActionData())))
  {
    if |data| != 2 then Outcome(reg, Success(Some(Reply(GameJoinDeny, "INVALID_DATA"))))
    else if ctx.Some? then Outcome(reg, Success(Some(Reply(GameJoinDeny, "ALREADY_IN_GAME"))))
    else if data[0] in reg.lobbies then
      var j := AddedPlayer(reg.lobbies[data[0]], data[1]);
      Outcome(Registry(reg.lobbies[data[0] := j.players], reg.games), Success(Some(j.reply.AsGameActionData())))
    else if data[0] in reg.games then Outcome(reg, Success(Some(Reply(GameJoinDeny, "GAME_ALREADY_STARTED"))))
    else
      Outcome(Registry(reg.lobbies[data[0] := [data[1]]], reg.games),
        Success(Some(GameActionData(GameJoinAccept, Some(data[1]), Some(GamePlayerData(data[0], data[1])), false))))
  }

  /** The lobby is started by this action: it has enough players and the sender joined it first. */
  predicate Promotes(reg: Registry, ctx: Option<GamePlayerData>) {
    && ctx.Some? && ctx.value.gameName in reg.lobbies
    && |reg.lobbies[ctx.value.gameName]| >= MinimumPlayers
    && reg.lobbies[ctx.value.gameName][0] == ctx.value.username
  }

  /**
   * The game under the name plays the action: a refused or failed action leaves the tables as
   * they were; an action that ends the game turns the game into a lobby again.
   */
  function PlayIn(reg: Registry, name: string, username: string, action: string, engine: Engine,
                  order: seq<PlayerColor>): (r: Outcome)
    requires reg.Valid() && name in reg.games && SoundEngine(engine) && ColorOrder(order)
    ensures r.registry.Valid()
    ensures r.reply.Success? ==> r.reply.value.Some? && r.reply.value.value.ctx.None?
    ensures r.reply.Failure? ==> r.registry == reg
  {
    var game := reg.games[name];
    var p := Play(game.state, game.players, action, username, engine);
    if p.reply.Failure? then Outcome(reg, Failure(p.reply.error))
    else
      var after := GameValue(game.players, p.state);
      var reg2 := Registry(reg.lobbies, reg.games[name := after]);
      if p.state.nextAction == EndGame then
        DowngradedIsValid(reg2, name, order);
        Outcome(Downgraded(reg2, name, order), Success(Some(p.reply.value)))
      else
        assert after.Valid();
        Outcome(reg2, Success(Some(p.reply.value)))
  }

  /**
   * GAMEACTION: the lobby's first player starts the game with their first action; without a
   * game the action is refused; otherwise the game plays it (an action without argument reads
   * past the end of the arguments) and, once the game has ended, it becomes a lobby again.
   */
  function ActInGame(reg: Registry, data: seq<string>, ctx: Option<GamePlayerData>, start: GameState, engine: Engine,
                     order: seq<PlayerColor>): (r: Outcome)
    requires reg.Valid() && Started(start) && SoundEngine(engine) && ColorOrder(order)
    ensures r.registry.Valid()
    ensures ctx.None? ==> r == Outcome(reg, Success(Some(Reply(GameActionDeny, "GAME_NOT_STARTED"))))
    ensures r.reply.Success? ==> r.reply.value.Some? && r.reply.value.value.ctx.None?
  {
    if ctx.None? then Outcome(reg, Success(Some(Reply(GameActionDeny, "GAME_NOT_STARTED"))))
    else
      var name := ctx.value.gameName;
      var reg1 := if Promotes(reg, ctx) then Promoted(reg, name, start) else reg;
      if name !in reg1.games then Outcome(reg1, Success(Some(Reply(GameActionDeny, "GAME_NOT_STARTED"))))
      else if data == [] then Outcome(reg1, Failure(IndexOutOfBounds))
      else PlayIn(reg1, name, ctx.value.username, data[0], engine, order)
  }

  /**
   * GAMELEAVE: a player leaves their lobby (which stays, even empty); leaving a game that has
   * not ended first turns the game into a lobby; anything else has no reply.
   */
  function LeaveGame(reg: Registry, ctx: Option<GamePlayerData>, order: seq<PlayerColor>): (r: Outcome)
    requires reg.Valid() && ColorOrder(order)
    ensures r.registry.Valid()
    ensures r.reply.Success? && (r.reply.value.Some? ==> !r.reply.value.value.shouldBeBroadcasted && r.reply.value.value.ctx.None?)
    ensures ctx.None? ==> r == Outcome(reg, Success(None))
  {
    if ctx.None? then Outcome(reg, Success(None))
    else
      var name, username := ctx.value.gameName, ctx.value.username;
      if name in reg.lobbies then
        var j := RemovedPlayer(reg.lobbies[name], username);
        Outcome(Registry(reg.lobbies[name := j.players], reg.games), Success(Some(j.reply.AsGameActionData())))
      else if name in reg.games && reg.games[name].state.nextAction != EndGame then
        DowngradedIsValid(reg, name, order);
        var reg1 := Downgraded(reg, name, order);
        var j := RemovedPlayer(reg1.lobbies[name], username);
        Outcome(Registry(reg1.lobbies[name := j.players], reg1.games), Success(Some(j.reply.AsGameActionData())))
      else Outcome(reg, Success(None))
  }

  /**
   * GAMEMSG: in a lobby or a game, the text goes to everyone as "name=text" (a message
   * without argument reads past the end of the arguments); elsewhere it is refused.
   */
  function SendMessage(reg: Registry, data: seq<string>, ctx: Option<GamePlayerData>): (r: Outcome)
    ensures r.registry == reg
    ensures r.reply.Success? ==> r.reply.value.Some? && r.reply.value.value.ctx.None?
    ensures r.reply.Success? && r.reply.value.value.shouldBeBroadcasted ==> ctx.Some?
    ensures r.reply.Failure? <==> ctx.Some? && (ctx.value.gameName in reg.lobbies || ctx.value.gameName in reg.games) && data == []
    ensures ctx.Some? && (ctx.value.gameName in reg.lobbies || ctx.value.gameName in reg.games) && data != [] ==>
      r.reply == Success(Some(Broadcast(GameMsg, ctx.value.username + "=" + data[0])))
    ensures ctx.None? || (ctx.value.gameName !in reg.lobbies && ctx.value.gameName !in reg.games) ==>
      r.reply == Success(Some(Reply(GameMsgDeny, "GAME_HAS_ENDED")))
  {
    if ctx.Some? && (ctx.value.gameName in reg.games || ctx.value.gameName in reg.lobbies) then
      if data == [] then Outcome(reg, Failure(IndexOutOfBounds))
      else Outcome(reg, Success(Some(Broadcast(GameMsg, ctx.value.username + "=" + data[0]))))
    else Outcome(reg, Success(Some(Reply(GameMsgDeny, "GAME_HAS_ENDED"))))
  }

  /** applyAction: the four client actions; any other action has no reply. */
  function Dispatch(reg: Registry, action: ServerAction, data: seq<string>, ctx: Option<GamePlayerData>,
                       start: GameState, engine: Engine, order: seq<PlayerColor>): (r: Outcome)
    requires reg.Valid() && Started(start) && SoundEngine(engine) && ColorOrder(order)
    ensures r.registry.Valid()
    ensures r.reply.Success? && r.reply.value.Some? && r.reply.value.value.shouldBeBroadcasted ==> ctx.Some?
    ensures action !in {GameJoin, GameAction, GameLeave, GameMsg} ==> r == Outcome(reg, Success(None))
  {
    match action
    case GameJoin => JoinGame(reg, data, ctx)
    case GameAction => ActInGame(reg, data, ctx, start, engine, order)
    case GameLeave => LeaveGame(reg, ctx, order)
    case GameMsg => SendMessage(reg, data, ctx)
    case _ => Outcome(reg, Success(None))
  }

  // ---------------------------------------------------------------------------------------
  // What the handlers promise

  /** JOIN with two arguments touches the named game only; with any other count, nothing. */
  lemma JoinIsLocal(reg: Registry, data: seq<string>, ctx: Option<GamePlayerData>)
    requires reg.Valid() && |data| == 2
    ensures JoinGame(reg, data, ctx).registry.AgreesBeyond(reg, data[0])
  {
  }

  /**
   * JOIN to a name that is neither a lobby nor a game opens a lobby holding the sender
   * alone, and gives the connection the context of that lobby.
   */
  lemma JoinOpensLobby(reg: Registry, data: seq<string>)
    requires reg.Valid() && |data| == 2 && data[0] !in reg.lobbies && data[0] !in reg.games
    ensures JoinGame(reg, data, None).registry.lobbies == reg.lobbies[data[0] := [data[1]]]
    ensures JoinGame(reg, data, None).reply ==
      Success(Some(GameActionData(GameJoinAccept, Some(data[1]), Some(GamePlayerData(data[0], data[1])), false)))
  {
  }

  /** JOIN to a game already running is refused and changes nothing. */
  lemma JoinRunningGameIsDenied(reg: Registry, data: seq<string>)
    requires reg.Valid() && |data| == 2 && data[0] in reg.games
    ensures JoinGame(reg, data, None) == Outcome(reg, Success(Some(Reply(GameJoinDeny, "GAME_ALREADY_STARTED"))))
  {
  }

  /** A promotion touches the promoted name only. */
  lemma PromotedIsLocal(reg: Registry, name: string, start: GameState)
    requires reg.Valid() && name in reg.lobbies && Started(start)
    ensures Promoted(reg, name, start).AgreesBeyond(reg, name)
  {
    var r := Promoted(reg, name, start);
    RemoveAway(reg.lobbies, name);
    UpdateAway(reg.games, name, r.games[name]);
  }

  /** Playing an action touches the game played only. */
  lemma PlayInIsLocal(reg: Registry, name: string, username: string, action: string, engine: Engine, order: seq<PlayerColor>)
    requires reg.Valid() && name in reg.games && SoundEngine(engine) && ColorOrder(order)
    ensures PlayIn(reg, name, username, action, engine, order).registry.AgreesBeyond(reg, name)
  {
    var game := reg.games[name];
    var p := Play(game.state, game.players, action, username, engine);
    if p.reply.Success? {
      var after := GameValue(game.players, p.state);
      UpdateAway(reg.games, name, after);
      if p.state.nextAction == EndGame {
        UpdateAway(reg.lobbies, name, RosterOf(game.players, order));
        RemoveAway(reg.games[name := after], name);
      }
    }
  }

  /**
   * Playing an action: a refused one leaves the tables as they were; an accepted one puts the
   * new state of the game in place; the end of the game turns it into a lobby of its players.
   */
  lemma PlayInOutcome(reg: Registry, name: string, username: string, action: string, engine: Engine, order: seq<PlayerColor>)
    requires reg.Valid() && name in reg.games && SoundEngine(engine) && ColorOrder(order)
    ensures var r := PlayIn(reg, name, username, action, engine, order);
      && (r.reply.Success? && r.reply.value.value.action == GameActionDeny ==> r.registry == reg)
      && (r.reply.Success? && r.reply.value.value.action == GameActionAccept ==>
            && name in r.registry.games && r.registry.games[name].players == reg.games[name].players
            && r.registry.games[name].state.Follows(reg.games[name].state))
      && (r.reply.Success? && r.reply.value.value.action == GameEnd ==>
            name !in r.registry.games && name in r.registry.lobbies
            && r.registry.lobbies[name] == RosterOf(reg.games[name].players, order))
  {
    var game := reg.games[name];
    var p := Play(game.state, game.players, action, username, engine);
    if p.reply.Success? {
      var reg2 := Registry(reg.lobbies, reg.games[name := GameValue(game.players, p.state)]);
      if p.reply.value.action == GameActionDeny {
        assert reg2.games == reg.games;
      }
    }
  }

  /** An action without a context, or for a lobby it does not start, is refused as GAME_NOT_STARTED and changes nothing. */
  lemma ActWithoutGameIsDenied(reg: Registry, data: seq<string>, ctx: Option<GamePlayerData>, start: GameState,
                               engine: Engine, order: seq<PlayerColor>)
    requires reg.Valid() && Started(start) && SoundEngine(engine) && ColorOrder(order)
    requires ctx.None? || (ctx.value.gameName !in reg.games && !Promotes(reg, ctx))
    ensures ActInGame(reg, data, ctx, start, engine, order) == Outcome(reg, Success(Some(Reply(GameActionDeny, "GAME_NOT_STARTED"))))
  {
  }

  /**
   * The first player of a lobby of at least two starts the game with their first action: the
   * game is made from the lobby and then plays that action.
   */
  lemma ActStartsGame(reg: Registry, data: seq<string>, ctx: Option<GamePlayerData>, start: GameState,
                      engine: Engine, order: seq<PlayerColor>)
    requires reg.Valid() && Started(start) && SoundEngine(engine) && ColorOrder(order)
    requires Promotes(reg, ctx) && data != []
    ensures ActInGame(reg, data, ctx, start, engine, order) ==
      PlayIn(Promoted(reg, ctx.value.gameName, start), ctx.value.gameName, ctx.value.username, data[0], engine, order)
  {
  }

  /** In a game already running, an action with an argument is played by that game. */
  lemma ActInRunningGame(reg: Registry, data: seq<string>, ctx: Option<GamePlayerData>, start: GameState,
                         engine: Engine, order: seq<PlayerColor>)
    requires reg.Valid() && Started(start) && SoundEngine(engine) && ColorOrder(order)
    requires ctx.Some? && ctx.value.gameName in reg.games && data != []
    ensures ActInGame(reg, data, ctx, start, engine, order) ==
      PlayIn(reg, ctx.value.gameName, ctx.value.username, data[0], engine, order)
  {
  }

  /** An action without argument, in a game running or about to start, reads past the end of the arguments. */
  lemma ActWithoutArgument(reg: Registry, ctx: Option<GamePlayerData>, start: GameState, engine: Engine, order: seq<PlayerColor>)
    requires reg.Valid() && Started(start) && SoundEngine(engine) && ColorOrder(order)
    requires ctx.Some? && (ctx.value.gameName in reg.games || Promotes(reg, ctx))
    ensures ActInGame(reg, [], ctx, start, engine, order).reply == Failure(IndexOutOfBounds)
    ensures ActInGame(reg, [], ctx, start, engine, order).registry ==
      if Promotes(reg, ctx) then Promoted(reg, ctx.value.gameName, start) else reg
  {
  }

  /** An action touches the sender's game only. */
  lemma ActIsLocal(reg: Registry, data: seq<string>, ctx: Option<GamePlayerData>, start: GameState,
                   engine: Engine, order: seq<PlayerColor>)
    requires reg.Valid() && Started(start) && SoundEngine(engine) && ColorOrder(order) && ctx.Some?
    ensures ActInGame(reg, data, ctx, start, engine, order).registry.AgreesBeyond(reg, ctx.value.gameName)
  {
    var name := ctx.value.gameName;
    if Promotes(reg, ctx) {
      var reg1 := Promoted(reg, name, start);
      PromotedIsLocal(reg, name, start);
      if data == [] {
        ActWithoutArgument(reg, ctx, start, engine, order);
      } else {
        ActStartsGame(reg, data, ctx, start, engine, order);
        PlayInIsLocal(reg1, name, ctx.value.username, data[0], engine, order);
      }
    } else if name in reg.games {
      if data == [] {
        ActWithoutArgument(reg, ctx, start, engine, order);
      } else {
        ActInRunningGame(reg, data, ctx, start, engine, order);
        PlayInIsLocal(reg, name, ctx.value.username, data[0], engine, order);
      }
    } else {
      ActWithoutGameIsDenied(reg, data, ctx, start, engine, order);
    }
  }

  /** Leaving a lobby removes the sender from it; the lobby stays, even empty. */
  lemma LeaveFromLobby(reg: Registry, ctx: GamePlayerData, order: seq<PlayerColor>)
    requires reg.Valid() && ColorOrder(order) && ctx.gameName in reg.lobbies
    ensures var j := RemovedPlayer(reg.lobbies[ctx.gameName], ctx.username);
      LeaveGame(reg, Some(ctx), order) == Outcome(Registry(reg.lobbies[ctx.gameName := j.players], reg.games), Success(Some(j.reply.AsGameActionData())))
    ensures ctx.gameName in LeaveGame(reg, Some(ctx), order).registry.lobbies
  {
  }

  /**
   * Leaving a game that has not ended turns it into a lobby of its players, in the colour
   * order, without the sender.
   */
  lemma LeaveFromGame(reg: Registry, ctx: GamePlayerData, order: seq<PlayerColor>)
    requires reg.Valid() && ColorOrder(order) && ctx.gameName in reg.games
    ensures var j := RemovedPlayer(RosterOf(reg.games[ctx.gameName].players, order), ctx.username);
      LeaveGame(reg, Some(ctx), order) ==
        Outcome(Registry(reg.lobbies[ctx.gameName := j.players], reg.games - {ctx.gameName}), Success(Some(j.reply.AsGameActionData())))
  {
    var name := ctx.gameName;
    var reg1 := Downgraded(reg, name, order);
    var j := RemovedPlayer(reg1.lobbies[name], ctx.username);
    assert reg1.lobbies[name := j.players] == reg.lobbies[name := j.players];
  }

  /** Leaving without a context, or a game that is neither a lobby nor a game, has no reply and changes nothing. */
  lemma LeaveElsewhere(reg: Registry, ctx: Option<GamePlayerData>, order: seq<PlayerColor>)
    requires reg.Valid() && ColorOrder(order)
    requires ctx.None? || (ctx.value.gameName !in reg.lobbies && ctx.value.gameName !in reg.games)
    ensures LeaveGame(reg, ctx, order) == Outcome(reg, Success(None))
  {
  }

  /** Leaving touches the sender's game only. */
  lemma LeaveIsLocal(reg: Registry, ctx: GamePlayerData, order: seq<PlayerColor>)
    requires reg.Valid() && ColorOrder(order)
    ensures LeaveGame(reg, Some(ctx), order).registry.AgreesBeyond(reg, ctx.gameName)
  {
    var name := ctx.gameName;
    if name in reg.lobbies {
      LeaveFromLobby(reg, ctx, order);
      UpdateAway(reg.lobbies, name, RemovedPlayer(reg.lobbies[name], ctx.username).players);
    } else if name in reg.games {
      LeaveFromGame(reg, ctx, order);
      UpdateAway(reg.lobbies, name, RemovedPlayer(RosterOf(reg.games[name].players, order), ctx.username).players);
      RemoveAway(reg.games, name);
    } else {
      LeaveElsewhere(reg, Some(ctx), order);
    }
  }

  /** A connection that has a context is refused by every JOIN, even after it left its game. */
  lemma JoinWithContextIsDenied(reg: Registry, message: string, ctx: GamePlayerData, start: GameState,
                                engine: Engine, order: seq<PlayerColor>)
    requires reg.Valid() && Started(start) && SoundEngine(engine) && ColorOrder(order)
    requires MessageAction(message) == Some(GameJoin) && |MessageData(message)| == 2
    ensures ParseAndApply(reg, message, Some(ctx), start, engine, order) ==
      Outcome(reg, Success(Some(Reply(GameJoinDeny, "ALREADY_IN_GAME"))))
  {
  }

  /** The action of a message: its first dot-separated piece; none at all when the message is dots only. */
  function MessageAction(message: string): (r: Option<ServerAction>)
  {
    var payload := Split(message, '.');
    if payload == [] then None else Some(FromString(payload[0]))
  }

  /** The arguments of a message: its second dot-separated piece cut at the commas, or none. */
  function MessageData(message: string): (r: seq<string>)
    ensures forall i :: 0 <= i < |r| ==> ',' !in r[i]
  {
    var payload := Split(message, '.');
    if |payload| > 1 then Split(payload[1], ',') else []
  }

  /** A message without a dot is an action alone: it has no arguments. */
  lemma MessageWithoutDot(message: string)
    requires message != "" && '.' !in message
    ensures MessageAction(message) == Some(FromString(message))
    ensures MessageData(message) == []
  {
    SplitWithoutSeparator(message, '.');
  }

  /**
   * A message written as an action's name, a dot and a text without dots reads back as that
   * action, with the text cut at the commas as its arguments.
   */
  lemma MessageParses(action: ServerAction, text: string)
    requires action.Declared() && text != "" && '.' !in text
    ensures MessageAction(action.Name() + "." + text) == Some(action)
    ensures MessageData(action.Name() + "." + text) == Split(text, ',')
  {
    var parts := [action.Name(), text];
    NameHasNoDot(action);
    FromStringOfName(action);
    assert Join(parts, ".") == action.Name() + "." + text by {
      assert parts[1..] == [text];
    }
    SplitOfJoin(parts, '.');
  }

  /**
   * parseAndApplyWebSocketAction: the message's action applied with its arguments, as the
   * connection's context says who sends it; an unknown action has no reply and changes
   * nothing, and a message of dots only has no action to read.
   */
  function ParseAndApply(reg: Registry, message: string, ctx: Option<GamePlayerData>,
                         start: GameState, engine: Engine, order: seq<PlayerColor>): (r: Outcome)
    requires reg.Valid() && Started(start) && SoundEngine(engine) && ColorOrder(order)
    ensures r.registry.Valid()
    ensures MessageAction(message).None? ==> r == Outcome(reg, Failure(IndexOutOfBounds))
    ensures MessageAction(message) == Some(Unknown) ==> r == Outcome(reg, Success(None))
    ensures r.reply.Success? && r.reply.value.Some? && r.reply.value.value.shouldBeBroadcasted ==> ctx.Some?
    ensures r.reply.Success? && r.reply.value.Some? && r.reply.value.value.ctx.Some? ==>
      ctx.None? && MessageAction(message) == Some(GameJoin)
  {
    match MessageAction(message)
    case None => Outcome(reg, Failure(IndexOutOfBounds))
    case Some(action) =>
      if action == Unknown then Outcome(reg, Success(None))
      else Dispatch(reg, action, MessageData(message), ctx, start, engine, order)
  }

  /** The tables a promotion leaves, entry by entry. */
  lemma PromotedTables(reg: Registry, name: string, start: GameState, colors: map<PlayerColor, string>)
    requires reg.Valid() && name in reg.lobbies && Started(start) && ColorsOf(reg.lobbies[name]) == Success(colors)
    ensures Registry(reg.lobbies - {name}, reg.games[name := GameValue(colors, start)]) == Promoted(reg, name, start)
  {
  }

  /**
   * The tables PlayIn leaves, step by step: the game's new state in place, then, if the game
   * has ended, its downgrade.
   */
  lemma PlayedTables(reg: Registry, name: string, username: string, action: string, engine: Engine, order: seq<PlayerColor>)
    requires reg.Valid() && name in reg.games && SoundEngine(engine) && ColorOrder(order)
    ensures var p := Play(reg.games[name].state, reg.games[name].players, action, username, engine);
      var reg2 := Registry(reg.lobbies, reg.games[name := GameValue(reg.games[name].players, p.state)]);
      && (p.reply.Failure? ==> reg2 == reg && PlayIn(reg, name, username, action, engine, order) == Outcome(reg, Failure(p.reply.error)))
      && (p.reply.Success? && p.state.nextAction == EndGame ==>
            PlayIn(reg, name, username, action, engine, order) == Outcome(Downgraded(reg2, name, order), Success(Some(p.reply.value))))
      && (p.reply.Success? && p.state.nextAction != EndGame ==>
            PlayIn(reg, name, username, action, engine, order) == Outcome(reg2, Success(Some(p.reply.value))))
  {
  }

  // ---------------------------------------------------------------------------------------
  // The game logic as the server holds it: lobby and game objects under their names

  class GameLogic {
    var lobbies: map<string, GameLobby>
    var games: map<string, OnGoingGame>

    /** The lobbies as values: each name with its players. */
    ghost function LobbyTable(): (t: map<string, seq<string>>)
      reads this, lobbies.Values
      ensures t.Keys == lobbies.Keys
    {
      map n | n in lobbies :: lobbies[n].players
    }

    /** The games as values: each name with its colours and its state. */
    ghost function GameTable(): (t: map<string, GameValue>)
      reads this, games.Values
      ensures t.Keys == games.Keys
    {
      map n | n in games :: GameValue(games[n].players, games[n].gameState)
    }

    ghost function Tables(): Registry
      reads this, lobbies.Values, games.Values
    {
      Registry(LobbyTable(), GameTable())
    }

    /** Every lobby and every game is filed under its own name. */
    ghost predicate Named()
      reads this, lobbies.Values, games.Values
    {
      && (forall n :: n in lobbies ==> lobbies[n].gameName == n)
      && (forall n :: n in games ==> games[n].gameName == n)
    }

    ghost predicate Valid()
      reads this, lobbies.Values, games.Values
    {
      Named() && Tables().Valid()
    }

    /** A server starts with no lobby and no game. */
    constructor ()
      ensures Valid() && Tables() == Registry(map[], map[])
    {
      lobbies := map[];
      games := map[];
    }

    /** parseAndApplyWebSocketAction: the tables change, and the reply is, as ParseAndApply says. */
    method ParseAndApplyWebSocketAction(message: string, ctx: Option<GamePlayerData>, start: GameState, engine: Engine,
                                        order: seq<PlayerColor>) returns (r: Result<Option<GameActionData>, Thrown>)
      requires Valid() && Started(start) && SoundEngine(engine) && ColorOrder(order)
      modifies this, lobbies.Values, games.Values
      ensures Valid()
      ensures Outcome(Tables(), r) == ParseAndApply(old(Tables()), message, ctx, start, engine, order)
    {
      var payload := Split(message, '.');
      if payload == [] {
        return Failure(IndexOutOfBounds);
      }
      var action := FromString(payload[0]);
      if action == Unknown {
        return Success(None);
      }
      var data := if |payload| > 1 then Split(payload[1], ',') else [];
      r := ApplyAction(action, data, ctx, start, engine, order);
    }

    /** applyAction: the four client actions; any other has no reply. */
    method ApplyAction(action: ServerAction, data: seq<string>, ctx: Option<GamePlayerData>, start: GameState,
                       engine: Engine, order: seq<PlayerColor>) returns (r: Result<Option<GameActionData>, Thrown>)
      requires Valid() && Started(start) && SoundEngine(engine) && ColorOrder(order)
      modifies this, lobbies.Values, games.Values
      ensures Valid()
      ensures Outcome(Tables(), r) == Dispatch(old(Tables()), action, data, ctx, start, engine, order)
    {
      match action
      case GameJoin => r := Join(data, ctx);
      case GameAction => r := Act(data, ctx, start, engine, order);
      case GameLeave => r := Leave(ctx, order);
      case GameMsg => r := PostMessage(data, ctx);
      case _ => r := Success(None);
    }

    /** The GAMEJOIN case. */
    method Join(data: seq<string>, ctx: Option<GamePlayerData>) returns (r: Result<Option<GameActionData>, Thrown>)
      requires Valid()
      modifies this, lobbies.Values
      ensures Outcome(Tables(), r) == JoinGame(old(Tables()), data, ctx)
      ensures Valid()
    {
      if |data| != 2 {
        return Success(Some(Reply(GameJoinDeny, "INVALID_DATA")));
      }
      var name, username := data[0], data[1];
      if ctx.Some? {
        return Success(Some(Reply(GameJoinDeny, "ALREADY_IN_GAME")));
      }
      if name in lobbies {
        var reply := AddToLobby(lobbies[name], username);
        return Success(Some(reply.AsGameActionData()));
      }
      if name in games {
        return Success(Some(Reply(GameJoinDeny, "GAME_ALREADY_STARTED")));
      }
      OpenLobby(name, username);
      return Success(Some(GameActionData(GameJoinAccept, Some(username), Some(GamePlayerData(name, username)), false)));
    }

    /** The lobby adds the player, as AddedPlayer describes; nothing else changes. */
    method AddToLobby(lobby: GameLobby, username: string) returns (reply: ServerActionWithData)
      requires Named() && lobby.gameName in lobbies && lobbies[lobby.gameName] == lobby
      modifies lobby
      ensures var j := AddedPlayer(old(Tables()).lobbies[lobby.gameName], username);
        Tables() == Registry(old(Tables()).lobbies[lobby.gameName := j.players], old(Tables()).games) && reply == j.reply
      ensures Named()
    {
      assert old(Tables()).lobbies[lobby.gameName] == lobby.players;
      reply := lobby.AddPlayer(username);
      OnlyLobbyChanged(lobby);
    }

    /** A new lobby under the name, holding the player alone; nothing else changes. */
    method OpenLobby(name: string, username: string)
      requires Named() && name !in lobbies
      modifies this
      ensures Tables() == Registry(old(Tables()).lobbies[name := [username]], old(Tables()).games)
      ensures Named() && games == old(games)
    {
      ghost var before := Tables();
      var lobby := new GameLobby(name, username);
      lobbies := lobbies[name := lobby];
      assert LobbyTable() == before.lobbies[name := [username]];
    }

    /** startGameWithLobby: the lobby's game, each player with the colour of their place, replaces the lobby under its name. */
    method StartGameWithLobby(lobby: GameLobby, start: GameState) returns (game: OnGoingGame)
      requires Named() && lobby.gameName in lobbies && lobbies[lobby.gameName] == lobby
      requires lobby.Valid() && start.Valid()
      modifies this
      ensures ColorsOf(old(Tables()).lobbies[lobby.gameName]) == Success(game.players)
      ensures Tables() == Registry(old(Tables()).lobbies - {lobby.gameName}, old(Tables()).games[lobby.gameName := GameValue(game.players, start)])
      ensures Named() && fresh(game) && games == old(games)[lobby.gameName := game]
    {
      ghost var before := Tables();
      var name := lobby.gameName;
      game := lobby.StartGame(start);
      games, lobbies := games[name := game], lobbies - {name};
      assert LobbyTable() == before.lobbies - {name};
      assert GameTable() == before.games[name := GameValue(game.players, start)];
    }

    /**
     * downgradeGameToLobby: a lobby of the game's players, in the colour order, replaces the
     * game under its name. The game may have ended, so only the filing is required.
     */
    method DowngradeGameToLobby(game: OnGoingGame, order: seq<PlayerColor>) returns (lobby: GameLobby)
      requires Named() && lobbies.Keys !! games.Keys
      requires game.gameName in games && games[game.gameName] == game
      modifies this
      ensures Tables() == Downgraded(old(Tables()), game.gameName, order)
      ensures Named() && fresh(lobby) && lobby.gameName == game.gameName && lobbies == old(lobbies)[game.gameName := lobby] && games == old(games) - {game.gameName}
    {
      ghost var before := Tables();
      var name := game.gameName;
      lobby := new GameLobby.WithPlayers(name, RosterOf(game.players, order));
      lobbies, games := lobbies[name := lobby], games - {name};
      assert LobbyTable() == before.lobbies[name := RosterOf(before.games[name].players, order)];
      assert GameTable() == before.games - {name};
    }

    /** The GAMEACTION case. */
    method Act(data: seq<string>, ctx: Option<GamePlayerData>, start: GameState, engine: Engine,
               order: seq<PlayerColor>) returns (r: Result<Option<GameActionData>, Thrown>)
      requires Valid() && Started(start) && SoundEngine(engine) && ColorOrder(order)
      modifies this, games.Values
      ensures Outcome(Tables(), r) == ActInGame(old(Tables()), data, ctx, start, engine, order)
      ensures Valid()
    {
      ghost var before := Tables();
      if ctx.None? {
        return Success(Some(Reply(GameActionDeny, "GAME_NOT_STARTED")));
      }
      var name, username := ctx.value.gameName, ctx.value.username;
      var game: OnGoingGame? := if name in games then games[name] else null;
      if name in lobbies && |lobbies[name].players| >= MinimumPlayers && lobbies[name].players[0] == username {
        assert Promotes(before, ctx) && lobbies[name].Valid();
        game := StartGameWithLobby(lobbies[name], start);
        PromotedTables(before, name, start, game.players);
      } else {
        assert !Promotes(before, ctx);
      }
      if game == null {
        ActWithoutGameIsDenied(before, data, ctx, start, engine, order);
        return Success(Some(Reply(GameActionDeny, "GAME_NOT_STARTED")));
      }
      if data == [] {
        ActWithoutArgument(before, ctx, start, engine, order);
        return Failure(IndexOutOfBounds);
      }
      if Promotes(before, ctx) {
        ActStartsGame(before, data, ctx, start, engine, order);
      } else {
        ActInRunningGame(before, data, ctx, start, engine, order);
      }
      r := PlayInGame(game, data[0], username, engine, order);
    }

    /** The end of the GAMEACTION case: the game plays the action and, if it has ended, becomes a lobby. */
    method PlayInGame(game: OnGoingGame, action: string, username: string, engine: Engine, order: seq<PlayerColor>)
      returns (r: Result<Option<GameActionData>, Thrown>)
      requires Valid() && SoundEngine(engine) && ColorOrder(order)
      requires game.gameName in games && games[game.gameName] == game
      modifies this, game
      ensures Outcome(Tables(), r) == PlayIn(old(Tables()), game.gameName, username, action, engine, order)
      ensures Valid()
    {
      ghost var before := Tables();
      var reply := ApplyInGame(game, action, username, engine);
      PlayedTables(before, game.gameName, username, action, engine, order);
      if reply.Failure? {
        return Failure(reply.error);
      }
      if game.HasEnded() {
        var _ := DowngradeGameToLobby(game, order);
      }
      return Success(Some(reply.value));
    }

    /** The game applies the action, as Play describes; nothing else changes. */
    method ApplyInGame(game: OnGoingGame, action: string, username: string, engine: Engine)
      returns (reply: Result<GameActionData, Thrown>)
      requires Named() && game.gameName in games && games[game.gameName] == game
      requires game.Valid() && SoundEngine(engine)
      modifies game
      ensures Played(reply, game.gameState) == Play(old(game.gameState), game.players, action, username, engine)
      ensures Tables() == Registry(old(Tables()).lobbies, old(Tables()).games[game.gameName := GameValue(game.players, game.gameState)])
      ensures Named()
    {
      ghost var before := Tables();
      reply := game.ApplyAction(action, username, engine);
      assert GameTable() == before.games[game.gameName := GameValue(game.players, game.gameState)];
    }

    /** The GAMELEAVE case. */
    method Leave(ctx: Option<GamePlayerData>, order: seq<PlayerColor>) returns (r: Result<Option<GameActionData>, Thrown>)
      requires Valid() && ColorOrder(order)
      modifies this, lobbies.Values
      ensures Outcome(Tables(), r) == LeaveGame(old(Tables()), ctx, order)
      ensures Valid()
    {
      ghost var before := Tables();
      if ctx.None? {
        return Success(None);
      }
      var name, username := ctx.value.gameName, ctx.value.username;
      if name in lobbies {
        var reply := RemoveFromLobby(lobbies[name], username);
        return Success(Some(reply.AsGameActionData()));
      }
      if name in games && !games[name].HasEnded() {
        var lobby := DowngradeGameToLobby(games[name], order);
        var reply := RemoveFromLobby(lobby, username);
        LeaveFromGame(before, ctx.value, order);
        return Success(Some(reply.AsGameActionData()));
      }
      return Success(None);
    }

    /** The lobby removes the player, as RemovedPlayer describes; nothing else changes. */
    method RemoveFromLobby(lobby: GameLobby, username: string) returns (reply: ServerActionWithData)
      requires Named() && lobby.gameName in lobbies && lobbies[lobby.gameName] == lobby
      modifies lobby
      ensures var j := RemovedPlayer(old(Tables()).lobbies[lobby.gameName], username);
        Tables() == Registry(old(Tables()).lobbies[lobby.gameName := j.players], old(Tables()).games) && reply == j.reply
      ensures Named()
    {
      assert old(Tables()).lobbies[lobby.gameName] == lobby.players;
      reply := lobby.RemovePlayer(username);
      OnlyLobbyChanged(lobby);
    }

    /** When one lobby's players are all that changed, the tables differ only in that lobby's entry. */
    twostate lemma OnlyLobbyChanged(lobby: GameLobby)
      requires old(Named()) && lobby.gameName in old(lobbies) && old(lobbies[lobby.gameName]) == lobby
      requires unchanged(this) && unchanged(old(games.Values))
      requires forall n :: n in old(lobbies) && n != lobby.gameName ==> unchanged(old(lobbies[n]))
      ensures Tables() == Registry(old(Tables()).lobbies[lobby.gameName := lobby.players], old(Tables()).games)
      ensures Named()
    {
      assert GameTable() == old(GameTable());
      assert LobbyTable() == old(LobbyTable())[lobby.gameName := lobby.players];
    }

    /** The GAMEMSG case: it changes nothing. */
    method PostMessage(data: seq<string>, ctx: Option<GamePlayerData>) returns (r: Result<Option<GameActionData>, Thrown>)
      ensures r == SendMessage(Tables(), data, ctx).reply
    {
      if ctx.Some? && (ctx.value.gameName in games || ctx.value.gameName in lobbies) {
        if data == [] {
          return Failure(IndexOutOfBounds);
        }
        return Success(Some(Broadcast(GameMsg, ctx.value.username + "=" + data[0])));
      }
      return Success(Some(Reply(GameMsgDeny, "GAME_HAS_ENDED")));
    }
  }
}
