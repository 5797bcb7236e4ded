/**
 * A lobby: the players waiting for a game to start, in the order they joined. The lobby
 * hands each player the colour of their place in that order when the game starts.
 */
module Lobbies {
  import opened Wrappers
  import opened Collections
  import opened Zones
  import opened Game
  import opened JavaStrings
  import opened ServerActions
  import opened ActionData
  import opened OnGoingGames

  /** What a lobby may hold: distinct names, at most as many as there are colours. */
  predicate IsRoster(players: seq<string>) {
    NoDuplicates(players) && |players| <= |AllColors|
  }

  /** The players once a lobby operation is done, and its reply. */
  datatype RosterReply = RosterReply(players: seq<string>, reply: ServerActionWithData)

  /**
   * addPlayer: a name already present is refused as USERNAME_TAKEN, before the capacity is
   * looked at; a lobby with as many players as there are colours is refused as GAME_FULL;
   * otherwise the name goes last, and the reply lists the players with commas.
   */
  function AddedPlayer(players: seq<string>, username: string): (j: RosterReply)
    ensures username in players ==> j == RosterReply(players, ServerActionWithData(GameJoinDeny, Some("USERNAME_TAKEN")))
    ensures username !in players && |players| == |AllColors| ==> j == RosterReply(players, ServerActionWithData(GameJoinDeny, Some("GAME_FULL")))
    ensures j.reply.action == GameJoinAccept <==> j.players != players
    ensures j.players != players ==> j.players == players + [username] && j.reply.data == Some(Join(j.players, ","))
    ensures IsRoster(players) ==> IsRoster(j.players) && (j.players != players <==> username !in players && |players| < |AllColors|)
  {
    if username in players then RosterReply(players, ServerActionWithData(GameJoinDeny, Some("USERNAME_TAKEN")))
    else if |players| == |AllColors| then RosterReply(players, ServerActionWithData(GameJoinDeny, Some("GAME_FULL")))
    else
      var added := players + [username];
      assert added != players by { assert |added| != |players|; }
      RosterReply(added, ServerActionWithData(GameJoinAccept, Some(Join(added, ","))))
  }

  /**
   * removePlayer: the first occurrence of the name goes, if there is one (nothing is thrown
   * otherwise), and the reply lists the remaining players with commas.
   */
  function RemovedPlayer(players: seq<string>, username: string): (j: RosterReply)
    ensures username !in players ==> j.players == players
    ensures multiset(j.players) == multiset(players) - multiset{username}
    ensures j.reply == ServerActionWithData(GameLeave, Some(Join(j.players, ",")))
    ensures IsRoster(players) ==> IsRoster(j.players) && username !in j.players
  {
    var rest := RemoveFirst(players, username);
    RemoveFirstNoDuplicates(players, username);
    RosterReply(rest, ServerActionWithData(GameLeave, Some(Join(rest, ","))))
  }

  /**
   * A client reads an accepted join back: when no name is empty or holds a comma, cutting the
   * reply's data at the commas gives the players.
   */
  lemma AcceptedRosterSplits(players: seq<string>, username: string)
    requires username != "" && ',' !in username
    requires forall i :: 0 <= i < |players| ==> players[i] != "" && ',' !in players[i]
    requires AddedPlayer(players, username).reply.action == GameJoinAccept
    ensures Split(AddedPlayer(players, username).reply.data.value, ',') == AddedPlayer(players, username).players
  {
    var added := players + [username];
    SplitOfJoin(added, ',');
  }

  /**
   * mapUsernamesToColors: at most five names, the i-th one mapped from the i-th colour of
   * PlayerColor.ALL; more names are an IllegalArgumentException.
   */
  function ColorsOf(usernames: seq<string>): (r: Result<map<PlayerColor, string>, Thrown>)
    ensures r.Success? <==> |usernames| <= |AllColors|
    ensures r.Failure? ==> r.error == IllegalArgument
    ensures r.Success? ==> forall c :: c in r.value <==> c.Ordinal() < |usernames|
    ensures r.Success? ==> forall c :: c in r.value ==> r.value[c] == usernames[c.Ordinal()]
    ensures r.Success? ==> forall i :: 0 <= i < |usernames| ==> AllColors[i] in r.value && r.value[AllColors[i]] == usernames[i]
  {
    if |usernames| > |AllColors| then Failure(IllegalArgument)
    else
      var m := map c: PlayerColor | c.Ordinal() < |usernames| :: usernames[c.Ordinal()];
      assert forall i :: 0 <= i < |usernames| ==> AllColors[i].Ordinal() == i;
      Success(m)
  }

  /** No two colours of the map name the same player. */
  predicate Injective(players: map<PlayerColor, string>) {
    forall c, d :: c in players && d in players && c != d ==> players[c] != players[d]
  }

  /** Distinct names get distinct colours: no name is mapped from two colours. */
  lemma ColorsOfDistinctNames(usernames: seq<string>)
    requires IsRoster(usernames)
    ensures ColorsOf(usernames).Success? && Injective(ColorsOf(usernames).value)
  {
    var m := ColorsOf(usernames).value;
    forall c, d | c in m && d in m && c != d
      ensures m[c] != m[d]
    {
      DistinctPlaces(usernames, c, d);
    }
  }

  /** Two colours stand for two places of the roster, which hold two names. */
  lemma DistinctPlaces(usernames: seq<string>, c: PlayerColor, d: PlayerColor)
    requires IsRoster(usernames) && c != d && c.Ordinal() < |usernames| && d.Ordinal() < |usernames|
    ensures usernames[c.Ordinal()] != usernames[d.Ordinal()]
  {
    OrdinalIsInjective(c, d);
    assert c.Ordinal() < d.Ordinal() || d.Ordinal() < c.Ordinal();
  }

  lemma OrdinalIsInjective(c: PlayerColor, d: PlayerColor)
    requires c != d
    ensures c.Ordinal() != d.Ordinal()
  {
  }

  class GameLobby {
    const gameName: string
    var players: seq<string>

    ghost predicate Valid()
      reads this
    {
      IsRoster(players)
    }

    /** A lobby nobody joined yet. */
    constructor Empty(gameName: string)
      ensures Valid() && this.gameName == gameName && players == []
    {
      this.gameName := gameName;
      players := [];
    }

    /** A lobby whose only player is the one who opened it. */
    constructor (gameName: string, username: string)
      ensures Valid() && this.gameName == gameName && players == [username]
    {
      this.gameName := gameName;
      players := [username];
    }

    /** A lobby holding the given players in the given order, as the game logic rebuilds one from a game. */
    constructor WithPlayers(gameName: string, players: seq<string>)
      ensures this.gameName == gameName && this.players == players
    {
      this.gameName := gameName;
      this.players := players;
    }

    /** addPlayer, as AddedPlayer describes. */
    method AddPlayer(username: string) returns (r: ServerActionWithData)
      modifies this
      ensures RosterReply(players, r) == AddedPlayer(old(players), username)
    {
      if username in players {
        return ServerActionWithData(GameJoinDeny, Some("USERNAME_TAKEN"));
      }
      if |players| == |AllColors| {
        return ServerActionWithData(GameJoinDeny, Some("GAME_FULL"));
      }
      players := players + [username];
      return ServerActionWithData(GameJoinAccept, Some(Join(players, ",")));
    }

    /** removePlayer, as RemovedPlayer describes. */
    method RemovePlayer(username: string) returns (r: ServerActionWithData)
      modifies this
      ensures RosterReply(players, r) == RemovedPlayer(old(players), username)
    {
      players := RemoveFirst(players, username);
      return ServerActionWithData(GameLeave, Some(Join(players, ",")));
    }

    /** startGame: a game of the players, each with the colour of their place. */
    method StartGame(start: GameState) returns (game: OnGoingGame)
      requires Valid() && start.Valid()
      ensures fresh(game) && game.Valid() && game.gameName == gameName && game.gameState == start
      ensures ColorsOf(players) == Success(game.players)
    {
      var colors := ColorsOf(players);
      game := new OnGoingGame(gameName, colors.value, start);
    }
  }
}
