/**
 * The game server: each text message of a connection goes to the game logic together with
 * the connection's context; a reply that grants a context attaches it to the connection and
 * subscribes the connection to its game's channel; a reply goes either to the sender or to
 * every connection of the sender's game. A watcher pings the connections every minute and
 * drops those that stopped answering.
 *
 * What the server sends is recorded in order: replies to the sender alone in `direct`,
 * broadcasts in the broadcaster's own record, and the watcher's steps in its own.
 */
module Server {
  import opened Wrappers
  import opened Collections
  import opened Zones
  import opened Game
  import opened ServerActions
  import opened ActionData
  import opened OnGoingGames
  import opened Sessions
  import opened Broadcaster

  /** PING_INTERVAL: a minute, in milliseconds. */
  const PingInterval := 60 * 1000

  /** CloseStatusCode.PROTOCOL_ERROR. */
  const ProtocolError := 1002

  /** A connection, as the server sees it: the context it carries once it joined a game. */
  class Connection {
    var context: Option<GamePlayerData>

    /** A connection that has not joined any game. */
    constructor ()
      ensures context.None?
    {
      context := None;
    }
  }

  /** A frame sent to one connection: a text, or the pong answering its ping. */
  datatype Frame = TextFrame(text: string) | PongFrame

  // ---------------------------------------------------------------------------------------
  // The timeout watcher

  /** What the watcher does to a connection on its round. */
  datatype Keepalive = Terminate | Close(code: int, reason: string) | Ping

  /**
   * The step for a connection whose last pong came at lastPong, on a round run at now: the
   * last ping went a minute ago; a pong older than two minutes before that ping ends the
   * connection without handshake, one older than a minute before it closes the connection
   * as a protocol error, and any other connection is pinged.
   */
  function KeepaliveStep(now: int, lastPong: int): (k: Keepalive)
    ensures k == Terminate <==> now - lastPong > 3 * PingInterval
    ensures k == Close(ProtocolError, "PLAYER_TIMEOUT") <==> 2 * PingInterval < now - lastPong <= 3 * PingInterval
    ensures k == Ping <==> now - lastPong <= 2 * PingInterval
  {
    var lastPing := now - PingInterval;
    if lastPing - lastPong > 2 * PingInterval then Terminate
    else if lastPing - lastPong > PingInterval then Close(ProtocolError, "PLAYER_TIMEOUT")
    else Ping
  }

  /** A step the watcher took, and the connection it took it on. */
  datatype Command = Command(to: Connection, step: Keepalive)

  /** A listing of the watched connections, as a HashMap iterates them: each exactly once. */
  predicate Lists(listing: seq<Connection>, delays: map<Connection, int>) {
    NoDuplicates(listing) && (forall ws :: ws in listing ==> ws in delays) && (forall ws :: ws in delays ==> ws in listing)
  }

  /** The steps of a round, one per listed connection, in listing order. */
  function Round(listing: seq<Connection>, delays: map<Connection, int>, now: int): (r: seq<Command>)
    requires forall ws :: ws in listing ==> ws in delays
    ensures |r| == |listing|
    ensures forall i :: 0 <= i < |r| ==> r[i] == Command(listing[i], KeepaliveStep(now, delays[listing[i]]))
  {
    seq(|listing|, i requires 0 <= i < |listing| => Command(listing[i], KeepaliveStep(now, delays[listing[i]])))
  }

  /**
   * A round takes exactly one step on each watched connection and none on any other, and the
   * step is the one its last pong calls for.
   */
  lemma RoundStepsEachOnce(listing: seq<Connection>, delays: map<Connection, int>, now: int)
    requires Lists(listing, delays)
    ensures forall ws :: ws in delays <==> exists i :: 0 <= i < |Round(listing, delays, now)| && Round(listing, delays, now)[i].to == ws
    ensures forall i, j :: 0 <= i < j < |Round(listing, delays, now)| ==> Round(listing, delays, now)[i].to != Round(listing, delays, now)[j].to
    ensures forall c :: c in Round(listing, delays, now) ==> c.to in delays && c.step == KeepaliveStep(now, delays[c.to])
  {
    var r := Round(listing, delays, now);
    forall ws | ws in delays
      ensures exists i :: 0 <= i < |r| && r[i].to == ws
    {
      var i :| 0 <= i < |listing| && listing[i] == ws;
      assert r[i].to == ws;
    }
  }

  /** TimeoutWatcher: the time of each watched connection's last pong, and what the rounds did. */
  class TimeoutWatcher {
    var clientDelays: map<Connection, int>
    /** The steps taken so far, in order. */
    var commands: seq<Command>

    constructor ()
      ensures clientDelays == map[] && commands == []
    {
      clientDelays := map[];
      commands := [];
    }

    /** addClient: the connection is watched from now on, as if it had just answered. */
    method AddClient(ws: Connection, now: int)
      modifies this
      ensures clientDelays == old(clientDelays)[ws := now] && commands == old(commands)
    {
      clientDelays := clientDelays[ws := now];
    }

    /** removeClient: the connection is no longer watched. */
    method RemoveClient(ws: Connection)
      modifies this
      ensures clientDelays == old(clientDelays) - {ws} && commands == old(commands)
    {
      clientDelays := clientDelays - {ws};
    }

    /** registerPong: the connection answered now. */
    method RegisterPong(ws: Connection, now: int)
      modifies this
      ensures clientDelays == old(clientDelays)[ws := now] && commands == old(commands)
    {
      clientDelays := clientDelays[ws := now];
    }

    /** run: one step on each watched connection, in the order the map lists them. */
    method Run(now: int, listing: seq<Connection>)
      requires Lists(listing, clientDelays)
      modifies this
      ensures clientDelays == old(clientDelays)
      ensures commands == old(commands) + Round(listing, clientDelays, now)
    {
      var i := 0;
      while i < |listing|
        invariant 0 <= i <= |listing| && clientDelays == old(clientDelays)
        invariant commands == old(commands) + Round(listing[..i], clientDelays, now)
      {
        var ws := listing[i];
        commands := commands + [Command(ws, KeepaliveStep(now, clientDelays[ws]))];
        i := i + 1;
        assert Round(listing[..i], clientDelays, now) == Round(listing[..i - 1], clientDelays, now) + [Command(ws, KeepaliveStep(now, clientDelays[ws]))];
      }
      assert listing[..i] == listing;
    }
  }

  // ---------------------------------------------------------------------------------------
  // Routing

  /** The connections of a channel: none for an unknown one. */
  function Subscribers(channels: map<string, seq<Connection>>, id: string): (r: seq<Connection>)
    ensures id !in channels ==> r == []
  {
    if id in channels then channels[id] else []
  }

  /** The message GAMELEAVE, which the server runs when a connection closes, is the leave of the game logic. */
  lemma LeaveMessageIsLeave(reg: Registry, ctx: Option<GamePlayerData>, start: GameState, engine: Engine, order: seq<PlayerColor>)
    requires reg.Valid() && Started(start) && SoundEngine(engine) && ColorOrder(order)
    ensures ParseAndApply(reg, GameLeave.Name(), ctx, start, engine, order) == LeaveGame(reg, ctx, order)
  {
    NameHasNoDot(GameLeave);
    MessageWithoutDot(GameLeave.Name());
    FromStringOfName(GameLeave);
  }

  /**
   * The context is never cleared: a connection that left its game, or whose game ended,
   * is refused by every later JOIN.
   */
  lemma JoinAfterLeaveIsDenied(reg: Registry, ctx: GamePlayerData, join: string, start: GameState, engine: Engine, order: seq<PlayerColor>)
    requires reg.Valid() && Started(start) && SoundEngine(engine) && ColorOrder(order)
    requires MessageAction(join) == Some(GameJoin) && |MessageData(join)| == 2
    ensures var left := ParseAndApply(reg, GameLeave.Name(), Some(ctx), start, engine, order).registry;
      ParseAndApply(left, join, Some(ctx), start, engine, order) == Outcome(left, Success(Some(Reply(GameJoinDeny, "ALREADY_IN_GAME"))))
  {
    LeaveMessageIsLeave(reg, Some(ctx), start, engine, order);
    var left := LeaveGame(reg, Some(ctx), order).registry;
    JoinWithContextIsDenied(left, join, ctx, start, engine, order);
  }

  /** WebSocketServer: the game logic, the channels of the games, and the watcher. */
  class WebSocketServer {
    const logic: GameLogic
    const broadcaster: WebSocketBroadcaster<Connection, string>
    const watcher: TimeoutWatcher
    /** The engine that decodes and applies actions, fixed for the run. */
    const engine: Engine
    /** The order in which a HashMap keyed by colour lists its keys, fixed for the run. */
    const order: seq<PlayerColor>
    /** Every frame sent to a connection alone (sendText and sendPong), in order. */
    var direct: seq<Delivery<Connection, Frame>>

    ghost predicate Valid()
      reads this, logic, logic.lobbies.Values, logic.games.Values, broadcaster
    {
      logic.Valid() && broadcaster.Valid() && SoundEngine(engine) && ColorOrder(order)
    }

    /** A server with no lobby, no game, no channel and no watched connection. */
    constructor (engine: Engine, order: seq<PlayerColor>)
      requires SoundEngine(engine) && ColorOrder(order)
      ensures Valid() && this.engine == engine && this.order == order
      ensures fresh(logic) && fresh(broadcaster) && fresh(watcher)
      ensures logic.Tables() == Registry(map[], map[]) && broadcaster.channels == map[] && broadcaster.sent == []
      ensures watcher.clientDelays == map[] && watcher.commands == [] && direct == []
    {
      this.engine := engine;
      this.order := order;
      logic := new GameLogic();
      broadcaster := new WebSocketBroadcaster();
      watcher := new TimeoutWatcher();
      direct := [];
    }

    /** onOpen: the new connection is watched. */
    method OnOpen(ws: Connection, now: int)
      modifies watcher
      ensures watcher.clientDelays == old(watcher.clientDelays)[ws := now] && watcher.commands == old(watcher.commands)
    {
      watcher.AddClient(ws, now);
    }

    /** onPong: the connection answered now. */
    method OnPong(ws: Connection, now: int)
      modifies watcher
      ensures watcher.clientDelays == old(watcher.clientDelays)[ws := now] && watcher.commands == old(watcher.commands)
    {
      watcher.RegisterPong(ws, now);
    }

    /** onPing: the connection gets its pong. */
    method OnPing(ws: Connection)
      modifies this
      ensures direct == old(direct) + [Delivery(ws, PongFrame)]
    {
      direct := direct + [Delivery(ws, PongFrame)];
    }

    /**
     * onMessage: the game logic handles the message as the connection's context says who
     * sends it (start is the state the game would start in, were the message to start one).
     * An exception of the game logic escapes and nothing is sent; no reply sends nothing;
     * a reply with a context attaches it and subscribes the connection to that game first;
     * a broadcast reply goes to every connection of the sender's game, any other to the
     * sender alone. The broadcast never meets a connection without context.
     */
    method OnMessage(ws: Connection, message: string, start: GameState) returns (thrown: Option<Thrown>)
      requires Valid() && Started(start)
      modifies logic, logic.lobbies.Values, logic.games.Values, broadcaster, ws, this
      ensures Valid()
      ensures var o := ParseAndApply(old(logic.Tables()), message, old(ws.context), start, engine, order);
        && logic.Tables() == o.registry
        && thrown == (if o.reply.Failure? then Some(o.reply.error) else None)
        && (o.reply.Failure? || o.reply.value.None? ==>
              && broadcaster.channels == old(broadcaster.channels) && broadcaster.sent == old(broadcaster.sent)
              && ws.context == old(ws.context) && direct == old(direct))
        && (o.reply.Success? && o.reply.value.Some? ==>
              var a := o.reply.value.value;
              && broadcaster.channels == (if a.ctx.Some? then Subscribed(old(broadcaster.channels), a.ctx.value.gameName, ws) else old(broadcaster.channels))
              && ws.context == (if a.ctx.Some? then a.ctx else old(ws.context))
              && (a.shouldBeBroadcasted ==>
                    && ws.context.Some? && direct == old(direct)
                    && broadcaster.sent == old(broadcaster.sent) + Deliveries(Subscribers(broadcaster.channels, ws.context.value.gameName), a.ToGameActionString()))
              && (!a.shouldBeBroadcasted ==>
                    broadcaster.sent == old(broadcaster.sent) && direct == old(direct) + [Delivery(ws, TextFrame(a.ToGameActionString()))]))
      ensures old(ws.context).Some? ==> ws.context == old(ws.context)
    {
      var r := logic.ParseAndApplyWebSocketAction(message, ws.context, start, engine, order);
      if r.Failure? {
        return Some(r.error);
      }
      if r.value.Some? {
        var a := r.value.value;
        if a.ctx.Some? {
          Subscribe(a.ctx.value.gameName, ws);
          Attach(ws, a.ctx.value);
        }
        if a.shouldBeBroadcasted {
          Broadcast(ws.context.value.gameName, a.ToGameActionString());
        } else {
          SendText(ws, a.ToGameActionString());
        }
      }
      return None;
    }

    /** The broadcaster's subscribeTo; the game logic is untouched. */
    method Subscribe(id: string, ws: Connection)
      requires Valid()
      modifies broadcaster
      ensures Valid() && logic.Tables() == old(logic.Tables())
      ensures broadcaster.channels == Subscribed(old(broadcaster.channels), id, ws) && broadcaster.sent == old(broadcaster.sent)
    {
      broadcaster.SubscribeTo(id, ws);
    }

    /** attachContext; the game logic is untouched. */
    method Attach(ws: Connection, ctx: GamePlayerData)
      requires Valid()
      modifies ws
      ensures Valid() && logic.Tables() == old(logic.Tables())
      ensures ws.context == Some(ctx)
    {
      ws.context := Some(ctx);
    }

    /** The broadcaster's broadcastTo; the game logic and the channels are untouched. */
    method Broadcast(id: string, text: string)
      requires Valid()
      modifies broadcaster
      ensures Valid() && logic.Tables() == old(logic.Tables())
      ensures broadcaster.channels == old(broadcaster.channels)
      ensures broadcaster.sent == old(broadcaster.sent) + Deliveries(Subscribers(broadcaster.channels, id), text)
    {
      broadcaster.BroadcastTo(id, text);
    }

    /** sendText, to the connection alone; the game logic is untouched. */
    method SendText(ws: Connection, text: string)
      requires Valid()
      modifies this
      ensures Valid() && logic.Tables() == old(logic.Tables())
      ensures direct == old(direct) + [Delivery(ws, TextFrame(text))]
    {
      direct := direct + [Delivery(ws, TextFrame(text))];
    }

    /**
     * onClose: the game logic handles a GAMELEAVE from the connection; when it replies, the
     * connection leaves its game's channel (a leave is never broadcast); in any case the
     * connection is no longer watched.
     */
    method OnClose(ws: Connection)
      requires Valid()
      modifies logic, logic.lobbies.Values, logic.games.Values, broadcaster, watcher
      ensures Valid()
      ensures var o := LeaveGame(old(logic.Tables()), ws.context, order);
        && logic.Tables() == o.registry
        && broadcaster.channels == (if o.reply.value.Some? then Unsubscribed(old(broadcaster.channels), ws.context.value.gameName, ws) else old(broadcaster.channels))
        && broadcaster.sent == old(broadcaster.sent)
      ensures watcher.clientDelays == old(watcher.clientDelays) - {ws} && watcher.commands == old(watcher.commands)
    {
      ghost var o := LeaveGame(logic.Tables(), ws.context, order);
      var r := logic.Leave(ws.context, order);
      assert broadcaster.Valid() && logic.Tables() == o.registry && r == o.reply;
      if r.value.Some? {
        Unsubscribe(ws.context.value.gameName, ws);
      }
      Unwatch(ws);
    }

    /** The broadcaster's unsubscribeFrom; the game logic is untouched. */
    method Unsubscribe(id: string, ws: Connection)
      requires Valid()
      modifies broadcaster
      ensures Valid() && logic.Tables() == old(logic.Tables())
      ensures broadcaster.channels == Unsubscribed(old(broadcaster.channels), id, ws) && broadcaster.sent == old(broadcaster.sent)
    {
      broadcaster.UnsubscribeFrom(id, ws);
    }

    /** The watcher's removeClient; the game logic and the channels are untouched. */
    method Unwatch(ws: Connection)
      requires Valid()
      modifies watcher
      ensures Valid() && logic.Tables() == old(logic.Tables())
      ensures watcher.clientDelays == old(watcher.clientDelays) - {ws} && watcher.commands == old(watcher.commands)
    {
      watcher.RemoveClient(ws);
    }
  }
}
