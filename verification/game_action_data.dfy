/**
 * The records exchanged between the server loop and the game logic: the context a
 * connection carries once it joined a game, and the replies of the game logic and of a lobby.
 * Java's null data and null context are None.
 */
module ActionData {
  import opened Wrappers
  import opened JavaStrings
  import opened ServerActions

  /** GamePlayerData: the game a connection joined and the name it joined under. */
  datatype GamePlayerData = GamePlayerData(gameName: string, username: string)

  /** The text of an action with its data: the action's name, then a dot and the data if there is any. */
  function ActionText(action: ServerAction, data: Option<string>): (s: string)
  {
    if data.None? then action.Name() else action.Name() + "." + data.value
  }

  /**
   * GameActionData: a reply of the game logic, with the context to attach to the sender's
   * connection, if any, and whether it goes to every connection of the sender's game.
   */
  datatype GameActionData = GameActionData(
    action: ServerAction,
    data: Option<string>,
    ctx: Option<GamePlayerData>,
    shouldBeBroadcasted: bool)
  {
    /** toGameActionString: the text sent to the client. */
    function ToGameActionString(): (s: string)
      ensures data.None? ==> s == action.Name()
      ensures data.Some? ==> |s| > |action.Name()| && s[|action.Name()|] == '.'
      ensures data.Some? ==> s[..|action.Name()|] == action.Name() && s[|action.Name()| + 1..] == data.value
    {
      ActionText(action, data)
    }
  }

  /**
   * The reply without data, context or broadcast: what the one-argument GameActionData the
   * game logic constructs would be, by analogy with ServerActionWithData's.
   */
  function Bare(action: ServerAction): (r: GameActionData)
    ensures r.action == action && r.ToGameActionString() == action.Name()
    ensures r.ctx.None? && !r.shouldBeBroadcasted
  {
    GameActionData(action, None, None, false)
  }

  /** A reply with data, to the sender only (the two-argument constructor). */
  function Reply(action: ServerAction, data: string): (r: GameActionData)
    ensures r.action == action && r.ToGameActionString() == action.Name() + "." + data
    ensures r.ctx.None? && !r.shouldBeBroadcasted
  {
    GameActionData(action, Some(data), None, false)
  }

  /** A reply with data to every connection of the game (the constructor with a broadcast flag of true). */
  function Broadcast(action: ServerAction, data: string): (r: GameActionData)
    ensures r.action == action && r.ToGameActionString() == action.Name() + "." + data
    ensures r.ctx.None? && r.shouldBeBroadcasted
  {
    GameActionData(action, Some(data), None, true)
  }

  /** ServerActionWithData: the reply of a lobby, an action and its data. */
  datatype ServerActionWithData = ServerActionWithData(action: ServerAction, data: Option<string>)
  {
    /** toString: the same text as a game-logic reply with the same action and data. */
    function ToString(): (s: string)
      ensures s == GameActionData(action, data, None, false).ToGameActionString()
    {
      ActionText(action, data)
    }

    /**
     * The game logic hands a lobby's reply on as its own: it becomes a reply to the sender
     * only, without context.
     */
    function AsGameActionData(): (r: GameActionData)
      ensures r.action == action && r.data == data && r.ToGameActionString() == ToString()
      ensures r.ctx.None? && !r.shouldBeBroadcasted
    {
      GameActionData(action, data, None, false)
    }
  }

  /** The one-argument constructor: an action without data, whose text is the action's name. */
  function WithoutData(action: ServerAction): (r: ServerActionWithData)
    ensures r.action == action && r.ToString() == action.Name()
  {
    ServerActionWithData(action, None)
  }

  /**
   * A client reading a reply back: cutting the text at the dots gives the action's name and,
   * when the data is not empty and holds no dot, the data.
   */
  lemma ReplyTextSplits(reply: GameActionData)
    requires reply.action.Declared()
    requires reply.data.Some? ==> reply.data.value != "" && '.' !in reply.data.value
    ensures reply.data.None? ==> Split(reply.ToGameActionString(), '.') == [reply.action.Name()]
    ensures reply.data.Some? ==> Split(reply.ToGameActionString(), '.') == [reply.action.Name(), reply.data.value]
    ensures FromString(Split(reply.ToGameActionString(), '.')[0]) == reply.action
  {
    var name := reply.action.Name();
    FromStringOfName(reply.action);
    NameHasNoDot(reply.action);
    if reply.data.None? {
      SplitOfJoin([name], '.');
    } else {
      var parts := [name, reply.data.value];
      assert Join(parts, ".") == name + "." + reply.data.value by {
        assert parts[1..] == [reply.data.value];
      }
      SplitOfJoin(parts, '.');
    }
  }

  /** No action name is empty or holds a dot. */
  lemma NameHasNoDot(a: ServerAction)
    ensures a.Name() != "" && '.' !in a.Name()
  {
  }
}
