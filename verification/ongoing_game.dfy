/**
 * A game in progress: the colours of its players mapped to their names, and the state of the
 * game, which each accepted action replaces.
 */
module OnGoingGames {
  import opened Wrappers
  import opened Zones
  import opened Game
  import Base32
  import ActionCodec
  import opened ServerActions
  import opened ActionData

  /** What applyAction leaves: its reply, or the exception that escapes it, and the game state. */
  datatype Played = Played(reply: Result<GameActionData, Thrown>, state: GameState)

  /**
   * What ActionEncoder.decodeAndApply promises about its outcome on a state: an action that
   * is not Base32, or one sent before the game started or after it ended, is refused without
   * exception; an accepted one carries the action text and a state that follows the old one.
   */
  predicate Sound(state: GameState, action: string, outcome: Result<Option<ActionCodec.StateAction>, Thrown>)
    requires state.Valid()
  {
    && (!Base32.IsValid(action) ==> outcome == Success(None))
    && (state.nextAction == StartGame || state.nextAction == EndGame ==> outcome == Success(None))
    && (outcome.Success? && outcome.value.Some? ==>
          outcome.value.value.action == action && outcome.value.value.gameState.Follows(state))
  }

  /**
   * The engine a game calls: ActionEncoder.decodeAndApply with the iteration orders of Java's
   * hash sets fixed for the run of the server.
   */
  type Engine = (GameState, string) --> Result<Option<ActionCodec.StateAction>, Thrown>

  /** The engine applies to every valid state and keeps decodeAndApply's promises. */
  ghost predicate SoundEngine(engine: Engine) {
    forall state: GameState, action: string :: state.Valid() ==> engine.requires(state, action) && Sound(state, action, engine(state, action))
  }

  /** decodeAndApply, whatever the iteration orders, is an engine of that kind. */
  lemma ActionEncoderIsSound(order: IterationOrder, listing: ActionCodec.OccupantListing)
    ensures SoundEngine((state: GameState, action: string) requires state.Valid() => ActionCodec.DecodeAndApply(state, action, order, listing))
  {
  }

  /** The player whose turn it is has a name, and it is that name. */
  predicate Authorized(state: GameState, players: map<PlayerColor, string>, username: string)
    requires state.Valid()
  {
    && state.CurrentPlayer().Some?
    && state.CurrentPlayer().value in players
    && players[state.CurrentPlayer().value] == username
  }

  /**
   * applyAction: only the name mapped to the current player's colour may act. Looking up a
   * missing colour (none while the game is not running) gives Java's null, whose equals throws.
   * An action that does not decode, or that the game refuses, is denied; an
   * IllegalArgumentException from the engine is denied as INVALID_ACTION; the game state
   * changes only by an accepted action, which is broadcast.
   */
  function Play(state: GameState, players: map<PlayerColor, string>, action: string, username: string, engine: Engine): (p: Played)
    requires state.Valid() && SoundEngine(engine)
    ensures p.state.Valid()
    ensures state.CurrentPlayer().None? || state.CurrentPlayer().value !in players ==> p == Played(Failure(NullPointer), state)
    ensures state.CurrentPlayer().Some? && state.CurrentPlayer().value in players && !Authorized(state, players, username) ==>
      p == Played(Success(Bare(GameActionDeny)), state)
    ensures Authorized(state, players, username) && !Base32.IsValid(action) ==> p == Played(Success(Bare(GameActionDeny)), state)
    ensures p.reply.Failure? ==> p.reply.error != IllegalArgument && p.state == state
    ensures p.reply.Success? ==> p.reply.value.action in {GameActionAccept, GameEnd, GameActionDeny}
    ensures p.reply.Success? && p.reply.value.action == GameActionDeny ==> p.state == state && !p.reply.value.shouldBeBroadcasted
    ensures p.reply.Success? && p.reply.value.action == GameActionAccept ==>
      && Authorized(state, players, username)
      && p.reply.value == Broadcast(GameActionAccept, action)
      && p.state.Follows(state) && p.state.nextAction != EndGame
    ensures p.reply.Success? && p.reply.value.action == GameEnd ==>
      && Authorized(state, players, username)
      && p.reply.value == Broadcast(GameEnd, "PLAYER_HAS_WON")
      && p.state.Follows(state) && p.state.nextAction == EndGame
  {
    var current := state.CurrentPlayer();
    if current.None? || current.value !in players then Played(Failure(NullPointer), state)
    else if players[current.value] != username then Played(Success(Bare(GameActionDeny)), state)
    else
      match engine(state, action)
      case Failure(IllegalArgument) => Played(Success(Reply(GameActionDeny, "INVALID_ACTION")), state)
      case Failure(e) => Played(Failure(e), state)
      case Success(None) => Played(Success(Bare(GameActionDeny)), state)
      case Success(Some(next)) =>
        if next.gameState.nextAction == EndGame then Played(Success(Broadcast(GameEnd, "PLAYER_HAS_WON")), next.gameState)
        else Played(Success(Broadcast(GameActionAccept, action)), next.gameState)
  }

  /** An action of the current player that the engine accepts puts the engine's new state in place, and is broadcast. */
  lemma AcceptedActionIsApplied(state: GameState, players: map<PlayerColor, string>, action: string, username: string,
                                engine: Engine, next: ActionCodec.StateAction)
    requires state.Valid() && SoundEngine(engine) && Authorized(state, players, username)
    requires engine(state, action) == Success(Some(next))
    ensures Play(state, players, action, username, engine).state == next.gameState
    ensures Play(state, players, action, username, engine).reply.Success?
    ensures Play(state, players, action, username, engine).reply.value.shouldBeBroadcasted
  {
  }

  /** An action of the current player that the engine refuses is denied, with INVALID_ACTION when it threw IllegalArgumentException. */
  lemma RefusedActionIsDenied(state: GameState, players: map<PlayerColor, string>, action: string, username: string, engine: Engine)
    requires state.Valid() && SoundEngine(engine) && Authorized(state, players, username)
    requires engine(state, action) == Success(None) || engine(state, action) == Failure(IllegalArgument)
    ensures engine(state, action) == Success(None) ==>
      Play(state, players, action, username, engine) == Played(Success(Bare(GameActionDeny)), state)
    ensures engine(state, action) == Failure(IllegalArgument) ==>
      Play(state, players, action, username, engine) == Played(Success(Reply(GameActionDeny, "INVALID_ACTION")), state)
  {
  }

  class OnGoingGame {
    const gameName: string
    const players: map<PlayerColor, string>
    var gameState: GameState

    ghost predicate Valid()
      reads this
    {
      gameState.Valid()
    }

    /**
     * The game of a lobby. The state it starts in (the tiles shuffled with the game name's hash
     * as seed, grouped into decks, and the starting tile placed) is given.
     */
    constructor (gameName: string, players: map<PlayerColor, string>, start: GameState)
      requires start.Valid()
      ensures Valid() && this.gameName == gameName && this.players == players && gameState == start
    {
      this.gameName := gameName;
      this.players := players;
      gameState := start;
    }

    /** hasEnded: the game expects no more actions. */
    predicate HasEnded()
      reads this
    {
      gameState.nextAction == EndGame
    }

    /** applyAction: the reply and the new game state are those Play describes. */
    method ApplyAction(action: string, username: string, engine: Engine) returns (r: Result<GameActionData, Thrown>)
      requires Valid() && SoundEngine(engine)
      modifies this
      ensures Valid()
      ensures Played(r, gameState) == Play(old(gameState), players, action, username, engine)
    {
      var current := gameState.CurrentPlayer();
      if current.None? || current.value !in players {
        return Failure(NullPointer);
      }
      if players[current.value] == username {
        var decoded := engine(gameState, action);
        if decoded.Failure? {
          if decoded.error == IllegalArgument {
            return Success(Reply(GameActionDeny, "INVALID_ACTION"));
          }
          return Failure(decoded.error);
        }
        if decoded.value.Some? {
          gameState := decoded.value.value.gameState;
          if HasEnded() {
            return Success(Broadcast(GameEnd, "PLAYER_HAS_WON"));
          }
          return Success(Broadcast(GameActionAccept, action));
        }
      }
      return Success(Bare(GameActionDeny));
    }
  }
}
