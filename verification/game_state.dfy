/**
 * The state of a game: the players in turn order (the current player first), the three tile
 * decks, the tile to place, the board, the next action expected and the message board.
 * Transitions are functions that give the next state, or the exception the checks of the
 * record and of the engine throw. The loops of the turn end and of the final scoring are
 * methods proved to compute the functions that specify them. Java's hash sets of areas and
 * of animals are iterated in an order that the caller supplies.
 */
module Game {
  import opened Wrappers
  import opened Collections
  import opened Geometry
  import opened Zones
  import opened Tiles
  import opened Areas
  import opened Decks
  import opened Messages
  import opened TextMaker
  import opened Scores
  import Board
  import Points

  /** MIN_PLAYER_COUNT. */
  const MinPlayerCount: int := 2

  /** The action the game expects next. */
  datatype Action = StartGame | PlaceTile | RetakePawn | OccupyTile | EndGame

  /**
   * The order in which a hash set of areas or of animals is iterated. Java takes it from the
   * hash codes of the elements; the model takes it from the caller.
   */
  datatype IterationOrder = IterationOrder(areas: set<Area> -> seq<Area>, animals: set<Animal> -> seq<Animal>) {
    /** Each set is listed with every one of its elements exactly once. */
    ghost predicate Enumerates() {
      && (forall s :: Elements(areas(s)) == s && NoDuplicates(areas(s)))
      && (forall s :: Elements(animals(s)) == s && NoDuplicates(animals(s)))
    }
  }

  /** The deer among the animals. */
  function DeerOf(animals: set<Animal>): (r: set<Animal>)
    ensures forall a :: a in r <==> a in animals && a.kind == Deer
  {
    set a | a in animals && a.kind == Deer
  }

  /** The number of tigers among the animals. */
  function TigerCount(animals: set<Animal>): nat {
    |set a | a in animals && a.kind == Tiger|
  }

  /** Stream.limit: the first n elements, or all of them when there are fewer. */
  function Take<T>(s: seq<T>, n: int): (r: seq<T>)
    ensures |r| == (if n <= 0 then 0 else if n < |s| then n else |s|)
    ensures r == s[..|r|]
  {
    if n <= 0 then [] else if n < |s| then s[..n] else s
  }

  function Min(a: int, b: int): int {
    if a <= b then a else b
  }

  /**
   * deersToCancel: of the meadow's animals not yet cancelled on the board, as many deer as
   * there are tigers, at most, taken in iteration order.
   */
  function DeersToCancel(board: Board.Board, meadow: Area, order: IterationOrder): set<Animal> {
    var animals := Animals(meadow, board.cancelledAnimals);
    var deer := DeerOf(animals);
    Elements(Take(order.animals(deer), Min(|deer|, TigerCount(animals))))
  }

  /**
   * deersToCancelWithPitTrap: as many deer as there are tigers in the pit trap's meadow area,
   * the deer outside the meadow adjacent to the pit trap first, then those within it.
   */
  function DeersToCancelWithPitTrap(board: Board.Board, pitTrap: Meadow, order: IterationOrder): (r: Result<set<Animal>, Thrown>)
    requires board.Valid()
    ensures r.Failure? ==> r.error == IllegalArgument
  {
    var meadowArea :- board.MeadowArea(pitTrap);
    var animals := Animals(meadowArea, board.cancelledAnimals);
    var pitTrapTile :- board.TileWithId(MeadowZone(pitTrap).TileId());
    var adjacentMeadow :- board.AdjacentMeadow(pitTrapTile.pos, pitTrap);
    Success(FarDeerFirst(DeerOf(animals), DeerOf(Animals(adjacentMeadow, board.cancelledAnimals)), TigerCount(animals), order))
  }

  /**
   * As many deer as there are tigers, or all of them, those outside the adjacent meadow in
   * iteration order first, then those within it.
   */
  function FarDeerFirst(deer: set<Animal>, adjacentDeer: set<Animal>, tigers: nat, order: IterationOrder): set<Animal> {
    var outsideDeer := deer - adjacentDeer;
    var limit := Min(|outsideDeer| + |adjacentDeer|, tigers);
    Elements(Take(order.animals(outsideDeer) + order.animals(adjacentDeer), limit))
  }

  /** The number of placed tiles without a placer that hold an occupant of that kind. */
  function UnplacedOccupantCount(tiles: seq<PlacedTile>, kind: OccupantKind): (n: nat)
    ensures n <= |tiles|
  {
    if tiles == [] then 0
    else
      UnplacedOccupantCount(tiles[1..], kind)
      + (if tiles[0].placer.None? && tiles[0].occupant.Some? && tiles[0].occupant.value.kind == kind then 1 else 0)
  }

  /** The last of the areas that holds a menhir, if any. */
  function LastWithMenhir(forests: seq<Area>): (r: Option<Area>)
    ensures r.None? <==> forall i :: 0 <= i < |forests| ==> !HasMenhir(forests[i])
    ensures r.Some? ==> exists i :: (0 <= i < |forests| && forests[i] == r.value && HasMenhir(r.value)
      && forall j :: i < j < |forests| ==> !HasMenhir(forests[j]))
  {
    if forests == [] then None
    else
      var last := |forests| - 1;
      if HasMenhir(forests[last]) then Some(forests[last])
      else
        assert forall i :: 0 <= i < last ==> forests[..last][i] == forests[i];
        LastWithMenhir(forests[..last])
  }

  /** The message board after scoring each closed forest in turn. */
  function ScoredForests(messages: MessageBoard, forests: seq<Area>): (r: Result<MessageBoard, Thrown>)
    ensures r.Success? ==> r.value.textMaker == messages.textMaker && messages.messages <= r.value.messages
    ensures r.Failure? ==> r.error == IllegalArgument
    decreases |forests|
  {
    if forests == [] then Success(messages)
    else
      var next :- messages.WithScoredForest(forests[0]);
      ScoredForests(next, forests[1..])
  }

  /** The message board after scoring each closed river in turn. */
  function ScoredRivers(messages: MessageBoard, rivers: seq<Area>): (r: Result<MessageBoard, Thrown>)
    ensures r.Success? ==> r.value.textMaker == messages.textMaker && messages.messages <= r.value.messages
    ensures r.Failure? ==> r.error == IllegalArgument
    decreases |rivers|
  {
    if rivers == [] then Success(messages)
    else
      var next :- messages.WithScoredRiver(rivers[0]);
      ScoredRivers(next, rivers[1..])
  }

  /** The message withScoredForest writes for an occupied closed forest: its points, its majority occupants, its tiles. */
  predicate ScoresForest(m: Message, forest: Area) {
    && Points.ForClosedForest(|forest.TileIds()|, MushroomGroupCount(forest)) == Success(m.points)
    && m.scorers == forest.MajorityOccupants() && m.tileIds == forest.TileIds()
  }

  /** The message withScoredRiver writes for an occupied closed river. */
  predicate ScoresRiver(m: Message, river: Area) {
    && Points.ForClosedRiver(|river.TileIds()|, RiverFishCount(river)) == Success(m.points)
    && m.scorers == river.MajorityOccupants() && m.tileIds == river.TileIds()
  }

  /** The added messages are those of the occupied forests, one each, in the order of the forests. */
  predicate ForestMessagesInOrder(added: seq<Message>, forests: seq<Area>)
    decreases |forests|
  {
    if forests == [] then added == []
    else if forests[0].IsOccupied() then
      added != [] && ScoresForest(added[0], forests[0]) && ForestMessagesInOrder(added[1..], forests[1..])
    else ForestMessagesInOrder(added, forests[1..])
  }

  /** The added messages are those of the occupied rivers, one each, in the order of the rivers. */
  predicate RiverMessagesInOrder(added: seq<Message>, rivers: seq<Area>)
    decreases |rivers|
  {
    if rivers == [] then added == []
    else if rivers[0].IsOccupied() then
      added != [] && ScoresRiver(added[0], rivers[0]) && RiverMessagesInOrder(added[1..], rivers[1..])
    else RiverMessagesInOrder(added, rivers[1..])
  }

  /** A closed forest or river can be scored: it is unoccupied or spans more than one tile. */
  predicate Scorable(area: Area) {
    !area.IsOccupied() || |area.TileIds()| > 1
  }

  /** Scoring the closed forests fails exactly when an occupied one lies on a single tile. */
  lemma {:induction false} ScoredForestsSucceeds(messages: MessageBoard, forests: seq<Area>)
    ensures ScoredForests(messages, forests).Success? <==> forall a :: a in forests ==> Scorable(a)
    decreases |forests|
  {
    if forests != [] {
      assert forall a :: a in forests <==> a == forests[0] || a in forests[1..];
      ScoredForestsStep(messages, forests);
      var first := messages.WithScoredForest(forests[0]);
      if first.Success? {
        ScoredForestsSucceeds(first.value, forests[1..]);
      } else {
        assert !Scorable(forests[0]) && forests[0] in forests;
      }
    }
  }

  /**
   * Once the closed forests are scored, the earlier messages are kept and each occupied
   * forest, in turn, has appended its own message.
   */
  lemma {:induction false} ScoredForestsMessages(messages: MessageBoard, forests: seq<Area>)
    ensures ScoredForests(messages, forests).Success? ==>
      var before := messages.messages;
      var after := ScoredForests(messages, forests).value.messages;
      && |before| <= |after| && after[..|before|] == before
      && ForestMessagesInOrder(after[|before|..], forests)
    decreases |forests|
  {
    if forests != [] && ScoredForests(messages, forests).Success? {
      var next := messages.WithScoredForest(forests[0]).value;
      ScoredForestsMessages(next, forests[1..]);
      var after := ScoredForests(next, forests[1..]).value.messages;
      ExtendedMessages(messages.messages, next.messages, after);
      ForestMessageStep(messages, forests, after[|next.messages|..]);
    }
  }

  /** One forest scored, then the others: its message, if any, comes before theirs. */
  lemma ForestMessageStep(messages: MessageBoard, forests: seq<Area>, tail: seq<Message>)
    requires forests != [] && messages.WithScoredForest(forests[0]).Success?
    requires ForestMessagesInOrder(tail, forests[1..])
    ensures var next := messages.WithScoredForest(forests[0]).value;
      |messages.messages| <= |next.messages| && ForestMessagesInOrder(next.messages[|messages.messages|..] + tail, forests)
  {
    var next := messages.WithScoredForest(forests[0]).value;
    var added := next.messages[|messages.messages|..];
    if forests[0].IsOccupied() {
      assert added == [next.messages[|messages.messages|]];
      assert (added + tail)[1..] == tail;
    } else {
      assert added + tail == tail;
    }
  }

  /**
   * Messages appended after a board that itself extends the first: the first board's
   * messages come first, and what follows them is what the middle board added, then the rest.
   */
  lemma ExtendedMessages(before: seq<Message>, middle: seq<Message>, after: seq<Message>)
    requires |before| <= |middle| <= |after| && middle[..|before|] == before && after[..|middle|] == middle
    ensures after[..|before|] == before
    ensures after[|before|..] == middle[|before|..] + after[|middle|..]
  {
  }

  /** Scoring the closed rivers fails exactly when an occupied one lies on a single tile. */
  lemma {:induction false} ScoredRiversSucceeds(messages: MessageBoard, rivers: seq<Area>)
    ensures ScoredRivers(messages, rivers).Success? <==> forall a :: a in rivers ==> Scorable(a)
    decreases |rivers|
  {
    if rivers != [] {
      assert forall a :: a in rivers <==> a == rivers[0] || a in rivers[1..];
      ScoredRiversStep(messages, rivers);
      var first := messages.WithScoredRiver(rivers[0]);
      if first.Success? {
        ScoredRiversSucceeds(first.value, rivers[1..]);
      } else {
        assert !Scorable(rivers[0]) && rivers[0] in rivers;
      }
    }
  }

  /**
   * Once the closed rivers are scored, the earlier messages are kept and each occupied
   * river, in turn, has appended its own message.
   */
  lemma {:induction false} ScoredRiversMessages(messages: MessageBoard, rivers: seq<Area>)
    ensures ScoredRivers(messages, rivers).Success? ==>
      var before := messages.messages;
      var after := ScoredRivers(messages, rivers).value.messages;
      && |before| <= |after| && after[..|before|] == before
      && RiverMessagesInOrder(after[|before|..], rivers)
    decreases |rivers|
  {
    if rivers != [] && ScoredRivers(messages, rivers).Success? {
      var next := messages.WithScoredRiver(rivers[0]).value;
      ScoredRiversMessages(next, rivers[1..]);
      var after := ScoredRivers(next, rivers[1..]).value.messages;
      ExtendedMessages(messages.messages, next.messages, after);
      RiverMessageStep(messages, rivers, after[|next.messages|..]);
    }
  }

  /** One river scored, then the others: its message, if any, comes before theirs. */
  lemma RiverMessageStep(messages: MessageBoard, rivers: seq<Area>, tail: seq<Message>)
    requires rivers != [] && messages.WithScoredRiver(rivers[0]).Success?
    requires RiverMessagesInOrder(tail, rivers[1..])
    ensures var next := messages.WithScoredRiver(rivers[0]).value;
      |messages.messages| <= |next.messages| && RiverMessagesInOrder(next.messages[|messages.messages|..] + tail, rivers)
  {
    var next := messages.WithScoredRiver(rivers[0]).value;
    var added := next.messages[|messages.messages|..];
    if rivers[0].IsOccupied() {
      assert added == [next.messages[|messages.messages|]];
      assert (added + tail)[1..] == tail;
    } else {
      assert added + tail == tail;
    }
  }

  /** The board and the message board, as the final scoring updates them. */
  datatype Tally = Tally(board: Board.Board, messages: MessageBoard)

  /** The pit trap of a meadow area: its first zone with that power. */
  function PitTrapOf(meadow: Area): (r: Option<Meadow>)
    ensures r.Some? ==> MeadowZone(r.value) in meadow.zones && r.value.specialPower == Some(PitTrap)
  {
    match meadow.ZoneWithSpecialPower(PitTrap)
    case Some(MeadowZone(m)) => Some(m)
    case _ => None
  }

  /**
   * The board once a pit trap's meadow area has lost its deer, unless a wild fire protects
   * them. The deer are chosen on the board the final scoring started from.
   */
  function PitTrapBoard(original: Board.Board, board: Board.Board, pitTrap: Meadow, hasWildFire: bool, order: IterationOrder): (r: Result<Board.Board, Thrown>)
    requires original.Valid() && board.Valid()
    ensures r.Success? ==> r.value.Valid() && r.value == board.WithMoreCancelledAnimals(r.value.cancelledAnimals)
    ensures hasWildFire ==> r == Success(board)
    ensures !hasWildFire ==> (r.Success? <==> DeersToCancelWithPitTrap(original, pitTrap, order).Success?)
    ensures r.Success? && !hasWildFire ==>
      r.value.cancelledAnimals == board.cancelledAnimals + DeersToCancelWithPitTrap(original, pitTrap, order).value
    ensures r.Failure? ==> r.error == IllegalArgument
  {
    if hasWildFire then Success(board)
    else
      var deer :- DeersToCancelWithPitTrap(original, pitTrap, order);
      Success(board.WithMoreCancelledAnimals(deer))
  }

  /** A meadow area with a pit trap: the meadow around the pit trap is scored, then the whole area. */
  function ScoredPitTrapMeadow(original: Board.Board, tally: Tally, meadow: Area, pitTrap: Meadow, hasWildFire: bool, order: IterationOrder): (r: Result<Tally, Thrown>)
    requires original.Valid() && tally.board.Valid()
    ensures r.Success? ==> r.value.board.Valid() && r.value.board == tally.board.WithMoreCancelledAnimals(r.value.board.cancelledAnimals)
    ensures r.Success? && hasWildFire ==> r.value.board == tally.board
    ensures r.Success? && !hasWildFire ==>
      && DeersToCancelWithPitTrap(original, pitTrap, order).Success?
      && r.value.board.cancelledAnimals == tally.board.cancelledAnimals + DeersToCancelWithPitTrap(original, pitTrap, order).value
    ensures r.Success? ==>
      && tally.board.TileWithId(MeadowZone(pitTrap).TileId()).Success?
      && var pos := tally.board.TileWithId(MeadowZone(pitTrap).TileId()).value.pos;
         && r.value.board.AdjacentMeadow(pos, pitTrap).Success?
         && var cancelled := r.value.board.cancelledAnimals;
            Extends(tally.messages.messages, r.value.messages.messages,
              MeadowScore(r.value.board.AdjacentMeadow(pos, pitTrap).value, cancelled) + MeadowScore(meadow, cancelled))
    ensures r.Success? ==> r.value.messages.textMaker == tally.messages.textMaker && tally.messages.messages <= r.value.messages.messages
    ensures r.Failure? ==> r.error == IllegalArgument
  {
    var pitTrapTile :- tally.board.TileWithId(MeadowZone(pitTrap).TileId());
    var board :- PitTrapBoard(original, tally.board, pitTrap, hasWildFire, order);
    var messages :- ScoredAroundPitTrap(board, pitTrapTile.pos, pitTrap, tally.messages, meadow);
    Success(Tally(board, messages))
  }

  /** The meadow around the pit trap is scored, then the whole meadow area. */
  function ScoredAroundPitTrap(board: Board.Board, pos: Pos, pitTrap: Meadow, messages: MessageBoard, meadow: Area): (r: Result<MessageBoard, Thrown>)
    requires board.Valid()
    ensures r.Success? <==> board.AdjacentMeadow(pos, pitTrap).Success?
    ensures r.Success? ==>
      Extends(messages.messages, r.value.messages,
        MeadowScore(board.AdjacentMeadow(pos, pitTrap).value, board.cancelledAnimals) + MeadowScore(meadow, board.cancelledAnimals))
    ensures r.Success? ==> r.value.textMaker == messages.textMaker && messages.messages <= r.value.messages
    ensures r.Failure? ==> r.error == IllegalArgument
  {
    var adjacentMeadow :- board.AdjacentMeadow(pos, pitTrap);
    var aroundScored := messages.WithScoredPitTrap(adjacentMeadow, board.cancelledAnimals).value;
    var scored := aroundScored.WithScoredMeadow(meadow, board.cancelledAnimals).value;
    ScoredPitTrapAppends(messages, adjacentMeadow, board.cancelledAnimals);
    ScoredMeadowAppends(aroundScored, meadow, board.cancelledAnimals);
    ExtendsTrans(messages.messages, aroundScored.messages, scored.messages,
      MeadowScore(adjacentMeadow, board.cancelledAnimals), MeadowScore(meadow, board.cancelledAnimals));
    Success(scored)
  }

  /**
   * The deer a meadow area loses in the final scoring, chosen on the board the scoring
   * started from: none under a wild fire; with a pit trap, those deersToCancelWithPitTrap
   * picks; otherwise those deersToCancel picks.
   */
  function MeadowDeer(original: Board.Board, meadow: Area, order: IterationOrder): (r: Result<set<Animal>, Thrown>)
    requires original.Valid()
    ensures meadow.ZoneWithSpecialPower(WildFire).Some? ==> r == Success({})
    ensures r.Failure? ==> r.error == IllegalArgument
  {
    if meadow.ZoneWithSpecialPower(WildFire).Some? then Success({})
    else match PitTrapOf(meadow)
      case Some(pitTrap) => DeersToCancelWithPitTrap(original, pitTrap, order)
      case None => Success(DeersToCancel(original, meadow, order))
  }

  /**
   * What the final scoring writes for a meadow area, on the board whose deer are already
   * cancelled: the meadow around its pit trap, if it has one, then the whole area, each
   * counting the animals not cancelled.
   */
  function MeadowScores(board: Board.Board, meadow: Area): (r: Result<seq<Score>, Thrown>)
    requires board.Valid()
    ensures r.Success? ==> |r.value| <= 2
    ensures PitTrapOf(meadow).None? ==> r == Success(MeadowScore(meadow, board.cancelledAnimals))
  {
    var whole := MeadowScore(meadow, board.cancelledAnimals);
    match PitTrapOf(meadow)
    case None => Success(whole)
    case Some(pitTrap) =>
      var tile :- board.TileWithId(MeadowZone(pitTrap).TileId());
      var adjacent :- board.AdjacentMeadow(tile.pos, pitTrap);
      Success(MeadowScore(adjacent, board.cancelledAnimals) + whole)
  }

  /**
   * One meadow area of the final scoring: without a wild fire its deer are cancelled (by a
   * pit trap, those far from it first); a pit trap scores the meadow around it, then the
   * whole area is scored. The deer are chosen on the board the final scoring started from.
   */
  function ScoredMeadow(original: Board.Board, tally: Tally, meadow: Area, order: IterationOrder): (r: Result<Tally, Thrown>)
    requires original.Valid() && tally.board.Valid()
    ensures r.Success? ==> r.value.board.Valid() && r.value.board == tally.board.WithMoreCancelledAnimals(r.value.board.cancelledAnimals)
    ensures r.Success? && meadow.ZoneWithSpecialPower(WildFire).Some? ==> r.value.board == tally.board
    ensures r.Success? ==>
      && MeadowDeer(original, meadow, order).Success?
      && r.value.board == tally.board.WithMoreCancelledAnimals(MeadowDeer(original, meadow, order).value)
      && MeadowScores(r.value.board, meadow).Success?
      && Extends(tally.messages.messages, r.value.messages.messages, MeadowScores(r.value.board, meadow).value)
    ensures r.Success? ==> r.value.messages.textMaker == tally.messages.textMaker && tally.messages.messages <= r.value.messages.messages
    ensures r.Failure? ==> r.error == IllegalArgument
  {
    var hasWildFire := meadow.ZoneWithSpecialPower(WildFire).Some?;
    var pitTrap := PitTrapOf(meadow);
    if pitTrap.Some? then
      var r := ScoredPitTrapMeadow(original, tally, meadow, pitTrap.value, hasWildFire, order);
      if r.Success? then
        PitTrapMeadowDeer(original, tally.board, r.value.board, meadow, order, pitTrap.value);
        PitTrapMeadowMessages(tally, meadow, r.value, pitTrap.value, MeadowDeer(original, meadow, order).value);
        r
      else r
    else
      PlainMeadowScores(original, tally, meadow, order);
      ScoredPlainMeadow(original, tally, meadow, hasWildFire, order)
  }

  /** The board a pit-trap meadow leaves has lost the deer MeadowDeer picks. */
  lemma PitTrapMeadowDeer(original: Board.Board, board: Board.Board, after: Board.Board, meadow: Area, order: IterationOrder, pitTrap: Meadow)
    requires original.Valid() && PitTrapOf(meadow) == Some(pitTrap)
    requires after == board.WithMoreCancelledAnimals(after.cancelledAnimals)
    requires meadow.ZoneWithSpecialPower(WildFire).Some? ==> after == board
    requires meadow.ZoneWithSpecialPower(WildFire).None? ==>
      && DeersToCancelWithPitTrap(original, pitTrap, order).Success?
      && after.cancelledAnimals == board.cancelledAnimals + DeersToCancelWithPitTrap(original, pitTrap, order).value
    ensures MeadowDeer(original, meadow, order).Success?
    ensures after == board.WithMoreCancelledAnimals(MeadowDeer(original, meadow, order).value)
  {
    var deer := MeadowDeer(original, meadow, order).value;
    if meadow.ZoneWithSpecialPower(WildFire).Some? {
      assert after.cancelledAnimals == board.cancelledAnimals + {};
    }
    Board.CancelledDifference(after, board, deer);
  }

  /** The messages of a pit-trap meadow, once the board is known to have lost exactly its deer. */
  lemma PitTrapMeadowMessages(tally: Tally, meadow: Area, r: Tally, pitTrap: Meadow, deer: set<Animal>)
    requires tally.board.Valid() && PitTrapOf(meadow) == Some(pitTrap)
    requires r.board == tally.board.WithMoreCancelledAnimals(deer)
    requires tally.board.TileWithId(MeadowZone(pitTrap).TileId()).Success?
    requires var pos := tally.board.TileWithId(MeadowZone(pitTrap).TileId()).value.pos;
      && r.board.AdjacentMeadow(pos, pitTrap).Success?
      && Extends(tally.messages.messages, r.messages.messages,
           MeadowScore(r.board.AdjacentMeadow(pos, pitTrap).value, r.board.cancelledAnimals) + MeadowScore(meadow, r.board.cancelledAnimals))
    ensures r.board.Valid() && MeadowScores(r.board, meadow).Success?
    ensures Extends(tally.messages.messages, r.messages.messages, MeadowScores(r.board, meadow).value)
  {
    Board.CancellingKeepsTileWithId(tally.board, deer, MeadowZone(pitTrap).TileId());
  }

  /** A meadow area without a pit trap is scored as MeadowDeer and MeadowScores say. */
  lemma PlainMeadowScores(original: Board.Board, tally: Tally, meadow: Area, order: IterationOrder)
    requires original.Valid() && tally.board.Valid() && PitTrapOf(meadow).None?
    ensures var r := ScoredPlainMeadow(original, tally, meadow, meadow.ZoneWithSpecialPower(WildFire).Some?, order).value;
      && MeadowDeer(original, meadow, order).Success?
      && r.board == tally.board.WithMoreCancelledAnimals(MeadowDeer(original, meadow, order).value)
      && MeadowScores(r.board, meadow).Success?
      && Extends(tally.messages.messages, r.messages.messages, MeadowScores(r.board, meadow).value)
  {
    var r := ScoredPlainMeadow(original, tally, meadow, meadow.ZoneWithSpecialPower(WildFire).Some?, order).value;
    assert r.board == tally.board.WithMoreCancelledAnimals(MeadowDeer(original, meadow, order).value);
  }

  /** A meadow area without a pit trap: its deer are cancelled unless it has a wild fire, then it is scored. */
  function ScoredPlainMeadow(original: Board.Board, tally: Tally, meadow: Area, hasWildFire: bool, order: IterationOrder): (r: Result<Tally, Thrown>)
    requires original.Valid() && tally.board.Valid()
    ensures r.Success? && r.value.board.Valid() && r.value.board == tally.board.WithMoreCancelledAnimals(r.value.board.cancelledAnimals)
    ensures hasWildFire ==> r.value.board == tally.board
    ensures r.value.board.cancelledAnimals == tally.board.cancelledAnimals + (if hasWildFire then {} else DeersToCancel(original, meadow, order))
    ensures Extends(tally.messages.messages, r.value.messages.messages, MeadowScore(meadow, r.value.board.cancelledAnimals))
    ensures r.value.messages.textMaker == tally.messages.textMaker && tally.messages.messages <= r.value.messages.messages
  {
    var board := if hasWildFire then tally.board
      else tally.board.WithMoreCancelledAnimals(DeersToCancel(original, meadow, order));
    assert board == tally.board.WithMoreCancelledAnimals(board.cancelledAnimals);
    ScoredMeadowAppends(tally.messages, meadow, board.cancelledAnimals);
    Success(Tally(board, tally.messages.WithScoredMeadow(meadow, board.cancelledAnimals).value))
  }

  /** The deer the meadow areas lose in the final scoring, all together. */
  function MeadowsDeer(original: Board.Board, meadows: seq<Area>, order: IterationOrder): (r: Result<set<Animal>, Thrown>)
    requires original.Valid()
    ensures r.Failure? ==> r.error == IllegalArgument
  {
    if meadows == [] then Success({})
    else
      var deer :- MeadowDeer(original, meadows[0], order);
      var rest :- MeadowsDeer(original, meadows[1..], order);
      Success(deer + rest)
  }

  /**
   * What the final scoring writes for the meadow areas in turn: each scored by MeadowScores
   * once its own deer, and those of the areas before it, are cancelled.
   */
  function MeadowsScores(original: Board.Board, board: Board.Board, meadows: seq<Area>, order: IterationOrder): (r: Result<seq<Score>, Thrown>)
    requires original.Valid() && board.Valid()
    ensures r.Success? ==> |r.value| <= 2 * |meadows|
    decreases |meadows|
  {
    if meadows == [] then Success([])
    else
      var deer :- MeadowDeer(original, meadows[0], order);
      var next := board.WithMoreCancelledAnimals(deer);
      var here :- MeadowScores(next, meadows[0]);
      var rest :- MeadowsScores(original, next, meadows[1..], order);
      Success(here + rest)
  }

  /** The final scoring of each meadow area in turn. */
  function ScoredMeadows(original: Board.Board, tally: Tally, meadows: seq<Area>, order: IterationOrder): (r: Result<Tally, Thrown>)
    requires original.Valid() && tally.board.Valid()
    ensures r.Success? ==> r.value.board.Valid() && r.value.board == tally.board.WithMoreCancelledAnimals(r.value.board.cancelledAnimals)
    ensures r.Success? ==>
      && MeadowsDeer(original, meadows, order).Success?
      && r.value.board == tally.board.WithMoreCancelledAnimals(MeadowsDeer(original, meadows, order).value)
      && MeadowsScores(original, tally.board, meadows, order).Success?
      && Extends(tally.messages.messages, r.value.messages.messages, MeadowsScores(original, tally.board, meadows, order).value)
    ensures r.Success? ==> r.value.messages.textMaker == tally.messages.textMaker && tally.messages.messages <= r.value.messages.messages
    ensures r.Failure? ==> r.error == IllegalArgument
    decreases |meadows|
  {
    if meadows == [] then
      ExtendsItself(tally.messages.messages);
      assert tally.board.WithMoreCancelledAnimals({}) == tally.board;
      Success(tally)
    else
      var next :- ScoredMeadow(original, tally, meadows[0], order);
      var r := ScoredMeadows(original, next, meadows[1..], order);
      if r.Success? then
        MeadowsStep(original, tally, next, r.value, meadows, order);
        r
      else r
  }

  /** The first meadow area scored, then the others: together they are scored as MeadowsDeer and MeadowsScores say. */
  lemma MeadowsStep(original: Board.Board, tally: Tally, next: Tally, r: Tally, meadows: seq<Area>, order: IterationOrder)
    requires original.Valid() && tally.board.Valid() && next.board.Valid() && meadows != []
    requires MeadowDeer(original, meadows[0], order).Success?
    requires next.board == tally.board.WithMoreCancelledAnimals(MeadowDeer(original, meadows[0], order).value)
    requires MeadowScores(next.board, meadows[0]).Success?
    requires Extends(tally.messages.messages, next.messages.messages, MeadowScores(next.board, meadows[0]).value)
    requires MeadowsDeer(original, meadows[1..], order).Success?
    requires r.board == next.board.WithMoreCancelledAnimals(MeadowsDeer(original, meadows[1..], order).value)
    requires MeadowsScores(original, next.board, meadows[1..], order).Success?
    requires Extends(next.messages.messages, r.messages.messages, MeadowsScores(original, next.board, meadows[1..], order).value)
    ensures MeadowsDeer(original, meadows, order).Success?
    ensures r.board == tally.board.WithMoreCancelledAnimals(MeadowsDeer(original, meadows, order).value)
    ensures MeadowsScores(original, tally.board, meadows, order).Success?
    ensures Extends(tally.messages.messages, r.messages.messages, MeadowsScores(original, tally.board, meadows, order).value)
  {
    var deer := MeadowDeer(original, meadows[0], order).value;
    var rest := MeadowsDeer(original, meadows[1..], order).value;
    assert r.board == tally.board.WithMoreCancelledAnimals(deer + rest);
    ExtendsTrans(tally.messages.messages, next.messages.messages, r.messages.messages,
      MeadowScores(next.board, meadows[0]).value, MeadowsScores(original, next.board, meadows[1..], order).value);
  }

  /** One river system of the final scoring: its fish, then its raft if it has one. */
  function ScoredRiverSystem(messages: MessageBoard, riverSystem: Area): (r: Result<MessageBoard, Thrown>)
    ensures r.Success? <==> RaftScorable(riverSystem)
    ensures r.Success? ==> Extends(messages.messages, r.value.messages, RiverSystemScore(riverSystem) + RaftScore(riverSystem))
    ensures r.Success? ==> r.value.textMaker == messages.textMaker && messages.messages <= r.value.messages
    ensures riverSystem.ZoneWithSpecialPower(Raft).None? ==> r == messages.WithScoredRiverSystem(riverSystem)
    ensures r.Failure? ==> r.error == IllegalArgument
  {
    var scored := messages.WithScoredRiverSystem(riverSystem).value;
    ScoredRiverSystemAppends(messages, riverSystem);
    if riverSystem.ZoneWithSpecialPower(Raft).Some? then
      ScoredRaftAppends(scored, riverSystem);
      var rafted := scored.WithScoredRaft(riverSystem);
      if rafted.Success? then
        ExtendsTrans(messages.messages, scored.messages, rafted.value.messages, RiverSystemScore(riverSystem), RaftScore(riverSystem));
        rafted
      else rafted
    else
      assert RiverSystemScore(riverSystem) + RaftScore(riverSystem) == RiverSystemScore(riverSystem);
      Success(scored)
  }

  /** The final scoring of each river system in turn. */
  function ScoredRiverSystems(messages: MessageBoard, riverSystems: seq<Area>): (r: Result<MessageBoard, Thrown>)
    ensures r.Success? <==> forall a :: a in riverSystems ==> RaftScorable(a)
    ensures r.Success? ==> Extends(messages.messages, r.value.messages, RiverSystemScores(riverSystems))
    ensures r.Success? ==> r.value.textMaker == messages.textMaker && messages.messages <= r.value.messages
    ensures r.Failure? ==> r.error == IllegalArgument
    decreases |riverSystems|
  {
    if riverSystems == [] then
      ExtendsItself(messages.messages);
      Success(messages)
    else
      assert forall a :: a in riverSystems <==> a == riverSystems[0] || a in riverSystems[1..];
      var next :- ScoredRiverSystem(messages, riverSystems[0]);
      var r := ScoredRiverSystems(next, riverSystems[1..]);
      if r.Success? then
        ExtendsTrans(messages.messages, next.messages, r.value.messages,
          RiverSystemScore(riverSystems[0]) + RaftScore(riverSystems[0]), RiverSystemScores(riverSystems[1..]));
        r
      else r
  }

  /** The largest of the points of the given colours, if any of them has points. */
  function MaxOver(points: map<PlayerColor, int>, colors: seq<PlayerColor>): (m: Option<int>)
    ensures m.None? <==> forall i :: 0 <= i < |colors| ==> colors[i] !in points
    ensures m.Some? ==> exists i :: 0 <= i < |colors| && colors[i] in points && points[colors[i]] == m.value
    ensures m.Some? ==> forall i :: 0 <= i < |colors| && colors[i] in points ==> points[colors[i]] <= m.value
  {
    if colors == [] then None
    else
      var rest := MaxOver(points, colors[1..]);
      assert forall i :: 1 <= i < |colors| ==> colors[i] == colors[1..][i - 1];
      if colors[0] !in points then rest
      else if rest.None? || rest.value <= points[colors[0]] then Some(points[colors[0]])
      else rest
  }

  /** The maximum of the points, or zero when nobody has any. */
  function MaxPoints(points: map<PlayerColor, int>): int {
    MaxOver(points, AllColors).GetOr(0)
  }

  /** The players whose points are the maximum. */
  function Winners(points: map<PlayerColor, int>): set<PlayerColor> {
    set c | c in points && points[c] == MaxPoints(points)
  }

  /** A player wins exactly when nobody has more points, and somebody wins once anybody scored. */
  lemma WinnersHaveTheMostPoints(points: map<PlayerColor, int>)
    ensures forall c :: c in Winners(points) <==> c in points && forall d :: d in points ==> points[d] <= points[c]
    ensures Winners(points) == {} <==> points == map[]
    ensures points != map[] ==> forall c :: c in Winners(points) ==> points[c] == MaxPoints(points)
  {
    var m := MaxOver(points, AllColors);
    forall c | c in points
      ensures exists i :: 0 <= i < |AllColors| && AllColors[i] == c
    {
      AllColorsByOrdinal(c);
    }
    if points != map[] {
      var c :| c in points;
      AllColorsByOrdinal(c);
      assert AllColors[c.Ordinal()] in points;
      var i :| 0 <= i < |AllColors| && AllColors[i] in points && points[AllColors[i]] == m.value;
      assert AllColors[i] in Winners(points);
    }
  }

  /** Somebody wins exactly when somebody scored. */
  lemma WinnersExistOnceScored(points: map<PlayerColor, int>)
    ensures Winners(points) == {} <==> points == map[]
  {
    WinnersHaveTheMostPoints(points);
  }

  /** Without duplicates, a sequence has as many elements as its set. */
  lemma {:induction false} DistinctCount<T>(s: seq<T>)
    requires NoDuplicates(s)
    ensures |Elements(s)| == |s|
  {
    if s != [] {
      var rest := s[1..];
      assert NoDuplicates(rest) by {
        forall i, j | 0 <= i < j < |rest|
          ensures rest[i] != rest[j]
        {
          assert rest[i] == s[i + 1] && rest[j] == s[j + 1];
        }
      }
      DistinctCount(rest);
      forall i | 0 <= i < |rest|
        ensures rest[i] != s[0]
      {
        assert rest[i] == s[i + 1];
      }
      assert Elements(s) == Elements(rest) + {s[0]};
    }
  }

  /** The first elements of a sequence without duplicates have no duplicates either. */
  lemma PrefixDistinct<T>(s: seq<T>, n: nat)
    requires NoDuplicates(s) && n <= |s|
    ensures NoDuplicates(s[..n])
  {
    forall i, j | 0 <= i < j < n
      ensures s[..n][i] != s[..n][j]
    {
      assert s[..n][i] == s[i] && s[..n][j] == s[j];
    }
  }

  /**
   * deersToCancel cancels only deer of the meadow, as many as there are tigers there, or all
   * of them when the tigers outnumber them.
   */
  lemma DeersToCancelCount(board: Board.Board, meadow: Area, order: IterationOrder)
    requires order.Enumerates()
    ensures var animals := Animals(meadow, board.cancelledAnimals);
      var r := DeersToCancel(board, meadow, order);
      r <= DeerOf(animals) && |r| == Min(|DeerOf(animals)|, TigerCount(animals))
  {
    var animals := Animals(meadow, board.cancelledAnimals);
    var deer := DeerOf(animals);
    var listed := order.animals(deer);
    var n := Min(|deer|, TigerCount(animals));
    DistinctCount(listed);
    var taken := Take(listed, n);
    PrefixDistinct(listed, |taken|);
    DistinctCount(taken);
  }

  /** Two sequences without duplicates and without common elements have none together. */
  lemma ConcatDistinct<T>(a: seq<T>, b: seq<T>)
    requires NoDuplicates(a) && NoDuplicates(b) && Elements(a) !! Elements(b)
    ensures NoDuplicates(a + b)
  {
    var ab := a + b;
    forall i, j | 0 <= i < j < |ab|
      ensures ab[i] != ab[j]
    {
      if j < |a| {
        assert ab[i] == a[i] && ab[j] == a[j];
      } else if i >= |a| {
        assert ab[i] == b[i - |a|] && ab[j] == b[j - |a|];
      } else {
        assert ab[i] == a[i] && ab[i] in Elements(a);
        assert ab[j] == b[j - |a|] && ab[j] in Elements(b);
      }
    }
  }

  /** Taking n elements of a + b takes only from a when n is at most |a|, and all of a otherwise. */
  lemma TakeFromConcat<T>(a: seq<T>, b: seq<T>, n: int)
    ensures n <= |a| ==> Elements(Take(a + b, n)) <= Elements(a)
    ensures n >= |a| ==> Elements(a) <= Elements(Take(a + b, n))
    ensures Elements(Take(a + b, n)) <= Elements(a) + Elements(b)
  {
    var taken := Take(a + b, n);
    forall x | x in Elements(taken)
      ensures x in Elements(a) + Elements(b)
      ensures n <= |a| ==> x in Elements(a)
    {
      var i :| 0 <= i < |taken| && taken[i] == x;
      assert taken[i] == (a + b)[i];
    }
    if n >= |a| {
      forall x | x in Elements(a)
        ensures x in Elements(taken)
      {
        var i :| 0 <= i < |a| && a[i] == x;
        assert taken[i] == (a + b)[i];
      }
    }
  }

  /** Taking from a sequence without duplicates gives as many distinct elements as taken. */
  lemma TakeDistinctCount<T>(s: seq<T>, n: int)
    requires NoDuplicates(s)
    ensures |Elements(Take(s, n))| == |Take(s, n)|
  {
    PrefixDistinct(s, |Take(s, n)|);
    DistinctCount(Take(s, n));
  }

  /**
   * The pit trap cancels only deer, as many as there are tigers or all of them, and the deer
   * outside the meadow adjacent to the pit trap go first: when the tigers are no more than
   * those, only they are cancelled; otherwise they all are.
   */
  lemma PitTrapCancelsFarDeerFirst(deer: set<Animal>, adjacentDeer: set<Animal>, tigers: nat, order: IterationOrder)
    requires order.Enumerates()
    ensures var outsideDeer := deer - adjacentDeer;
      var r := FarDeerFirst(deer, adjacentDeer, tigers, order);
      && r <= outsideDeer + adjacentDeer
      && |r| == Min(|outsideDeer| + |adjacentDeer|, tigers)
      && (tigers <= |outsideDeer| ==> r <= outsideDeer)
      && (tigers >= |outsideDeer| ==> outsideDeer <= r)
  {
    var outside := order.animals(deer - adjacentDeer);
    var adjacent := order.animals(adjacentDeer);
    DistinctCount(outside);
    DistinctCount(adjacent);
    ConcatDistinct(outside, adjacent);
    TakeDistinctCount(outside + adjacent, Min(|deer - adjacentDeer| + |adjacentDeer|, tigers));
    TakeFromConcat(outside, adjacent, Min(|deer - adjacentDeer| + |adjacentDeer|, tigers));
  }

  /** board::couldPlaceTile, as the predicate withTopTileDrawnUntil takes. */
  function CouldPlace(board: Board.Board): (test: Tile -> bool)
    requires board.Valid()
    ensures forall t :: test(t) == board.CouldPlaceTile(t)
  {
    t => board.CouldPlaceTile(t)
  }

  /** The first tile of the deck that the board can place is the one at index i. */
  predicate FirstPlaceable(deck: seq<Tile>, board: Board.Board, i: int)
    requires board.Valid()
  {
    FirstMatch(deck, CouldPlace(board), i)
  }

  /** Some tile of the deck can be placed on the board. */
  predicate SomePlaceable(deck: seq<Tile>, board: Board.Board)
    requires board.Valid()
  {
    SomeMatch(deck, CouldPlace(board))
  }

  /** A normal tile closed a forest with a menhir: the same player is to place a menhir tile, if one fits. */
  predicate IsMenhirTurn(ended: TurnEnd)
    requires ended.board.Valid()
  {
    ended.menhirForest.Some? && ended.board.LastPlacedTile().Some? && ended.board.LastPlacedTile().value.Kind() == Normal
  }

  /** When drawing until a tile fits leaves one, it can be placed and drawn. */
  lemma DrawnTopCanBePlaced(decks: TileDecks, kind: TileKind, board: Board.Board)
    requires board.Valid()
    requires decks.WithTopTileDrawnUntil(kind, CouldPlace(board)).DeckSize(kind) > 0
    ensures var drawn := decks.WithTopTileDrawnUntil(kind, CouldPlace(board));
      && drawn.TopTile(kind).Some?
      && board.CouldPlaceTile(drawn.TopTile(kind).value)
      && drawn.WithTopTileDrawn(kind).Success?
  {
    DrawnTopPasses(decks, kind, CouldPlace(board));
  }

  /** The board, the last forest with a menhir and the messages once the closed areas are scored. */
  datatype TurnEnd = TurnEnd(board: Board.Board, menhirForest: Option<Area>, messages: MessageBoard)

  /** The state of a game. */
  datatype GameState = GameState(
    players: seq<PlayerColor>,
    tileDecks: TileDecks,
    tileToPlace: Option<Tile>,
    board: Board.Board,
    nextAction: Action,
    messageBoard: MessageBoard)
  {
    /**
     * The checks of the record's constructor: at least two players, and a tile to place
     * exactly when the next action is to place one; the board keeps its own invariant.
     */
    predicate Valid() {
      && |players| >= MinPlayerCount
      && (tileToPlace.Some? <==> nextAction == PlaceTile)
      && board.Valid()
    }

    /** currentPlayer: the first player while the game runs, nobody before it starts or once it ended. */
    function CurrentPlayer(): (r: Option<PlayerColor>)
      requires players != []
      ensures r.Some? <==> nextAction != StartGame && nextAction != EndGame
      ensures r.Some? ==> r.value == players[0]
    {
      if nextAction != StartGame && nextAction != EndGame then Some(players[0]) else None
    }

    /**
     * freeOccupantsCount: the occupants of that kind the player has not placed on the board.
     * Without a player (a null colour) the board counts the occupants of tiles without placer.
     */
    function FreeOccupantsCount(player: Option<PlayerColor>, kind: OccupantKind): (n: int)
      requires board.Valid()
      ensures player.Some? ==>
        n == OccupantsCount(kind) - |Board.OccupiedIndexes(board.PlacedInOrder(), |board.PlacedInOrder()|, player.value, kind)|
      ensures n <= OccupantsCount(kind)
    {
      var onBoard := if player.Some? then board.OccupantCount(player.value, kind)
        else UnplacedOccupantCount(board.PlacedInOrder(), kind);
      OccupantsCount(kind) - onBoard
    }

    /**
     * The area an occupant of the tile would join: the forest or the meadow of its zone, the
     * river of a pawn on a river, and the river system of a hut, on a river or on a lake.
     */
    function AreaOfOccupant(tile: PlacedTile, o: Occupant): (r: Result<Area, Thrown>)
      requires board.Valid()
      ensures r.Success? ==> tile.ZoneWithId(o.zoneId).Success? && tile.ZoneWithId(o.zoneId).value in r.value.zones
      ensures r.Success? && tile.ZoneWithId(o.zoneId).value.ForestZone? ==> r.value in board.zonePartitions.forests.areas
      ensures r.Success? && tile.ZoneWithId(o.zoneId).value.MeadowZone? ==> r.value in board.zonePartitions.meadows.areas
      ensures r.Success? && tile.ZoneWithId(o.zoneId).value.RiverZone? && o.kind == Pawn ==> r.value in board.zonePartitions.rivers.areas
      ensures r.Success? && tile.ZoneWithId(o.zoneId).value.IsWater() && !(tile.ZoneWithId(o.zoneId).value.RiverZone? && o.kind == Pawn) ==>
        r.value in board.zonePartitions.riverSystems.areas
      ensures r.Failure? ==> r.error == IllegalArgument
    {
      var zone :- tile.ZoneWithId(o.zoneId);
      match zone
      case ForestZone(forest) => board.ForestArea(forest)
      case MeadowZone(meadow) => board.MeadowArea(meadow)
      case RiverZone(river) => if o.kind == Pawn then board.RiverArea(river) else board.RiverSystemArea(zone)
      case LakeZone(_) => board.RiverSystemArea(zone)
    }

    /**
     * The filter of lastTilePotentialOccupants: the current player still has an occupant of
     * that kind, and the area it would join is not occupied. The area is looked up only when
     * an occupant is left.
     */
    function OccupantIsFree(tile: PlacedTile, o: Occupant): (r: Result<bool, Thrown>)
      requires players != [] && board.Valid()
      ensures FreeOccupantsCount(CurrentPlayer(), o.kind) <= 0 ==> r == Success(false)
      ensures FreeOccupantsCount(CurrentPlayer(), o.kind) > 0 ==>
        r == (if AreaOfOccupant(tile, o).Success? then Success(!AreaOfOccupant(tile, o).value.IsOccupied()) else Failure(IllegalArgument))
    {
      if FreeOccupantsCount(CurrentPlayer(), o.kind) <= 0 then Success(false)
      else
        var area :- AreaOfOccupant(tile, o);
        Success(!area.IsOccupied())
    }

    /**
     * lastTilePotentialOccupants: of the occupants the last placed tile allows, those whose
     * kind the current player still has and whose area is not occupied. Refused on an empty
     * board, and when the area of a candidate cannot be found.
     */
    function LastTilePotentialOccupants(): (r: Result<set<Occupant>, Thrown>)
      requires players != [] && board.Valid()
      ensures board.IsEmpty() ==> r == Failure(IllegalArgument)
      ensures r.Failure? ==> r.error == IllegalArgument
      ensures r.Success? ==> !board.IsEmpty()
      ensures r.Success? ==> forall o :: o in r.value <==>
          && o in board.LastPlacedTile().value.PotentialOccupants()
          && FreeOccupantsCount(CurrentPlayer(), o.kind) > 0
          && AreaOfOccupant(board.LastPlacedTile().value, o).Success?
          && !AreaOfOccupant(board.LastPlacedTile().value, o).value.IsOccupied()
      ensures r.Success? ==> forall o :: o in board.LastPlacedTile().value.PotentialOccupants() ==>
          OccupantIsFree(board.LastPlacedTile().value, o).Success?
    {
      var tile := board.LastPlacedTile();
      if tile.None? then Failure(IllegalArgument)
      else
        var candidates := tile.value.PotentialOccupants();
        if exists o :: o in candidates && OccupantIsFree(tile.value, o).Failure? then Failure(IllegalArgument)
        else Success(set o | o in candidates && OccupantIsFree(tile.value, o).value)
    }

    /**
     * What a transition from prev keeps: the record's invariant, the players in the same
     * order or rotated once, and the messages already posted, with the same text maker.
     */
    predicate Follows(prev: GameState)
      requires prev.players != []
    {
      && Valid()
      && (players == prev.players || players == Rotated(prev.players))
      && messageBoard.textMaker == prev.messageBoard.textMaker
      && prev.messageBoard.messages <= messageBoard.messages
    }

    /**
     * next is this state once a tile is placed on newBoard and its power acted: the same
     * players and decks, possibly more cancelled animals and more messages, and the player
     * is to take back a pawn or to occupy the tile.
     */
    predicate PlacedOn(newBoard: Board.Board, next: GameState) {
      && next.Valid() && next.players == players && next.tileDecks == tileDecks
      && next.board == newBoard.WithMoreCancelledAnimals(next.board.cancelledAnimals)
      && (next.nextAction == RetakePawn || next.nextAction == OccupyTile)
      && messageBoard.messages <= next.messageBoard.messages && next.messageBoard.textMaker == messageBoard.textMaker
    }

    /** The state a tile's power leaves: newBoard with more animals cancelled, and more messages. */
    lemma PlacedOnWith(newBoard: Board.Board, more: set<Animal>, messages: MessageBoard, action: Action)
      requires Valid() && newBoard.Valid() && (action == RetakePawn || action == OccupyTile)
      requires messageBoard.messages <= messages.messages && messages.textMaker == messageBoard.textMaker
      ensures PlacedOn(newBoard, GameState(players, tileDecks, None, newBoard.WithMoreCancelledAnimals(more), action, messages))
      ensures more == {} ==> PlacedOn(newBoard, GameState(players, tileDecks, None, newBoard, action, messages))
    {
      var after := newBoard.WithMoreCancelledAnimals(more);
      assert newBoard.WithMoreCancelledAnimals(after.cancelledAnimals) == after;
      assert newBoard.WithMoreCancelledAnimals({}) == newBoard;
    }

    /**
     * withStartingTilePlaced: the top start tile goes to the origin, without rotation or
     * placer, and the top normal tile becomes the tile to place. With an empty start deck
     * PlacedTile is given a null tile; an empty normal deck is refused by the draw.
     */
    function WithStartingTilePlaced(): (r: Result<GameState, Thrown>)
      requires Valid()
      ensures nextAction != StartGame ==> r == Failure(IllegalArgument)
      ensures nextAction == StartGame && tileDecks.startTiles == [] ==> r == Failure(NullPointer)
      ensures r.Success? ==> tileDecks.startTiles != [] && tileDecks.normalTiles != []
      ensures r.Success? ==> r.value.Valid() && r.value.nextAction == PlaceTile
      ensures r.Success? ==> r.value.players == players && r.value.messageBoard == messageBoard
      ensures r.Success? ==> r.value.board.PlacedInOrder() == board.PlacedInOrder() + [PlacedTile(tileDecks.startTiles[0], None, NoTurn, Origin, None)]
      ensures r.Success? ==> r.value.tileToPlace == Some(tileDecks.normalTiles[0])
      ensures r.Success? ==> r.value.tileDecks == TileDecks(tileDecks.startTiles[1..], tileDecks.normalTiles[1..], tileDecks.menhirTiles)
      ensures r.Failure? && tileDecks.startTiles != [] ==> r.error != NullPointer
    {
      var _ :- CheckArgument(nextAction == StartGame);
      var startingTile := tileDecks.TopTile(Start);
      if startingTile.None? then Failure(NullPointer)
      else
        var startingPlacedTile := PlacedTile(startingTile.value, None, NoTurn, Origin, None);
        var newDecks := tileDecks.WithTopTileDrawn(Start).value;
        var newBoard :- board.WithNewTile(startingPlacedTile);
        var tileToPlace := newDecks.TopTile(Normal);
        var drawnDecks :- newDecks.WithTopTileDrawn(Normal);
        Success(GameState(players, drawnDecks, tileToPlace, newBoard, PlaceTile, messageBoard))
    }

    /**
     * The logboat of a lake just placed: the current player scores two points per lake of
     * the river system the lake now belongs to.
     */
    function WithLogboatScored(newBoard: Board.Board, lake: Zone): (r: Result<MessageBoard, Thrown>)
      requires players != [] && newBoard.Valid() && lake.LakeZone?
      ensures r.Success? <==> newBoard.RiverSystemArea(lake).Success? && LakeCount(newBoard.RiverSystemArea(lake).value) > 0
      ensures r.Success? ==> messageBoard.AppendedTo(r.value, 2 * LakeCount(newBoard.RiverSystemArea(lake).value),
        {players[0]}, newBoard.RiverSystemArea(lake).value.TileIds())
      ensures r.Failure? ==> r.error == IllegalArgument
    {
      var riverSystem :- newBoard.RiverSystemArea(lake);
      messageBoard.WithScoredLogboat(players[0], riverSystem)
    }

    /**
     * The hunting trap of a meadow just placed: the current player scores the meadow adjacent
     * to the trap with the deer the tigers eat left out, then every animal of that meadow
     * still on the board is cancelled.
     */
    function WithHuntingTrapScored(newBoard: Board.Board, pos: Pos, meadow: Meadow, order: IterationOrder): (r: Result<(Board.Board, MessageBoard), Thrown>)
      requires players != [] && newBoard.Valid()
      ensures r.Success? <==> newBoard.AdjacentMeadow(pos, meadow).Success?
      ensures r.Success? ==>
        var adjacentMeadow := newBoard.AdjacentMeadow(pos, meadow).value;
        var points := MeadowPoints(Animals(adjacentMeadow, DeersToCancel(board, adjacentMeadow, order)));
        && r.value.0 == newBoard.WithMoreCancelledAnimals(Animals(adjacentMeadow, newBoard.cancelledAnimals))
        && Animals(adjacentMeadow, r.value.0.cancelledAnimals) == {}
        && (points <= 0 ==> r.value.1 == messageBoard)
        && (points > 0 ==> messageBoard.AppendedTo(r.value.1, points, {players[0]}, adjacentMeadow.TileIds()))
      ensures r.Failure? ==> r.error == IllegalArgument
    {
      var adjacentMeadow :- newBoard.AdjacentMeadow(pos, meadow);
      var cancelledDeer := DeersToCancel(board, adjacentMeadow, order);
      var messages := messageBoard.WithScoredHuntingTrap(players[0], adjacentMeadow, cancelledDeer).value;
      var everyAnimal := Animals(adjacentMeadow, newBoard.cancelledAnimals);
      AnimalsCancel(adjacentMeadow, newBoard.cancelledAnimals, everyAnimal);
      Success((newBoard.WithMoreCancelledAnimals(everyAnimal), messages))
    }

    /** A logboat just placed: its river system is scored and the player is to occupy the tile. */
    function WithLogboatActed(newBoard: Board.Board, lake: Zone): (r: Result<GameState, Thrown>)
      requires Valid() && newBoard.Valid() && lake.LakeZone?
      ensures r.Success? ==> PlacedOn(newBoard, r.value) && r.value.nextAction == OccupyTile
      ensures r.Failure? ==> r.error == IllegalArgument
    {
      var messages :- WithLogboatScored(newBoard, lake);
      PlacedOnWith(newBoard, {}, messages, OccupyTile);
      Success(GameState(players, tileDecks, None, newBoard, OccupyTile, messages))
    }

    /** A hunting trap just placed: its meadow is scored and emptied, and the player is to occupy the tile. */
    function WithHuntingTrapActed(newBoard: Board.Board, pos: Pos, meadow: Meadow, order: IterationOrder): (r: Result<GameState, Thrown>)
      requires Valid() && newBoard.Valid()
      ensures r.Success? ==> PlacedOn(newBoard, r.value) && r.value.nextAction == OccupyTile
      ensures r.Failure? ==> r.error == IllegalArgument
    {
      var scored :- WithHuntingTrapScored(newBoard, pos, meadow, order);
      var more := Animals(newBoard.AdjacentMeadow(pos, meadow).value, newBoard.cancelledAnimals);
      PlacedOnWith(newBoard, more, scored.1, OccupyTile);
      Success(GameState(players, tileDecks, None, scored.0, OccupyTile, scored.1))
    }

    /**
     * The first half of withPlacedTile: the tile, which must not be occupied yet, joins the
     * board, then its special power acts.
     */
    function WithTileAndPower(tile: PlacedTile, order: IterationOrder): (r: Result<GameState, Thrown>)
      requires Valid()
      ensures nextAction != PlaceTile || tile.occupant.Some? ==> r == Failure(IllegalArgument)
      ensures r.Success? ==> nextAction == PlaceTile && board.WithNewTile(tile).Success?
      ensures r.Success? ==> r == PowerActs(tile, board.WithNewTile(tile).value, order)
    {
      var _ :- CheckArgument(nextAction == PlaceTile && tile.occupant.None?);
      var newBoard :- board.WithNewTile(tile);
      PowerActs(tile, newBoard, order)
    }

    /**
     * The special power of the tile just placed: a logboat or a hunting trap scores; a
     * shaman makes the player take back a pawn when they have one on the board. Otherwise,
     * or then, the player is to occupy the tile.
     */
    function PowerActs(tile: PlacedTile, newBoard: Board.Board, order: IterationOrder): (r: Result<GameState, Thrown>)
      requires Valid() && newBoard.Valid()
      ensures r.Success? ==> PlacedOn(newBoard, r.value)
      ensures r.Success? ==> (r.value.nextAction == RetakePawn <==> IsShaman(tile) && newBoard.OccupantCount(players[0], Pawn) > 0)
      ensures r.Failure? ==> r.error == IllegalArgument
    {
      var zone := tile.SpecialPowerZone();
      PowersAreExclusive(tile);
      if IsLogboat(tile) then WithLogboatActed(newBoard, zone.value)
      else if IsShaman(tile) && newBoard.OccupantCount(players[0], Pawn) > 0 then
        PlacedOnWith(newBoard, {}, messageBoard, RetakePawn);
        Success(GameState(players, tileDecks, None, newBoard, RetakePawn, messageBoard))
      else if IsHuntingTrap(tile) then WithHuntingTrapActed(newBoard, tile.pos, zone.value.meadow, order)
      else
        PlacedOnWith(newBoard, {}, messageBoard, OccupyTile);
        Success(GameState(players, tileDecks, None, newBoard, OccupyTile, messageBoard))
    }

    /**
     * withPlacedTile: the tile is placed and its power acts; unless the player is to take a
     * pawn back, they occupy the tile, or their turn ends when no occupant can go on it.
     */
    function WithPlacedTile(tile: PlacedTile, order: IterationOrder): (r: Result<GameState, Thrown>)
      requires Valid()
      ensures nextAction != PlaceTile || tile.occupant.Some? ==> r == Failure(IllegalArgument)
      ensures r.Success? ==> board.WithNewTile(tile).Success? && r.value.Follows(this)
      ensures r.Success? ==> r.value.nextAction != StartGame
      ensures r.Success? && r.value.nextAction == RetakePawn ==>
        IsShaman(tile) && board.WithNewTile(tile).value.OccupantCount(players[0], Pawn) > 0
      ensures r.Success? && r.value.nextAction == OccupyTile ==>
        r.value.board.LastPlacedTile() == Some(tile) && r.value.LastTilePotentialOccupants().Success? && r.value.LastTilePotentialOccupants().value != {}
      ensures r.Success? && r.value.nextAction == PlaceTile ==> r.value.board.CouldPlaceTile(r.value.tileToPlace.value)
    {
      var placed :- WithTileAndPower(tile, order);
      var newBoard := board.WithNewTile(tile).value;
      assert PlacedOn(newBoard, placed);
      assert placed.board.LastPlacedTile() == Some(tile) by {
        assert placed.board.PlacedInOrder() == newBoard.PlacedInOrder();
      }
      if placed.nextAction == RetakePawn then Success(placed)
      else placed.TurnFinishedIfOccupationImpossible(order)
    }

    /**
     * withOccupantRemoved: after a shaman, the pawn chosen goes back to its owner, or none
     * does; the player is then to occupy the tile, unless no occupant can go on it.
     */
    function WithOccupantRemoved(occupant: Option<Occupant>, order: IterationOrder): (r: Result<GameState, Thrown>)
      requires Valid()
      ensures nextAction != RetakePawn ==> r == Failure(IllegalArgument)
      ensures occupant.Some? && occupant.value.kind != Pawn ==> r == Failure(IllegalArgument)
      ensures r.Success? ==> r.value.Follows(this)
      ensures r.Success? ==> occupant.None? || board.WithoutOccupant(occupant.value).Success?
      ensures r.Success? && r.value.nextAction == OccupyTile ==>
        && r.value.tileDecks == tileDecks
        && r.value.board == (if occupant.None? then board else board.WithoutOccupant(occupant.value).value)
        && r.value.LastTilePotentialOccupants().Success? && r.value.LastTilePotentialOccupants().value != {}
      ensures r.Success? ==> r.value.nextAction in {OccupyTile, PlaceTile, EndGame}
      ensures r.Failure? ==> r.error == IllegalArgument
    {
      var _ :- CheckArgument(nextAction == RetakePawn);
      var _ :- CheckArgument(occupant.None? || occupant.value.kind == Pawn);
      var newBoard :- if occupant.None? then Success(board) else board.WithoutOccupant(occupant.value);
      GameState(players, tileDecks, None, newBoard, OccupyTile, messageBoard).TurnFinishedIfOccupationImpossible(order)
    }

    /**
     * withNewOccupant: the occupant chosen goes on the last placed tile, or none does, and
     * the turn ends.
     */
    function WithNewOccupant(occupant: Option<Occupant>, order: IterationOrder): (r: Result<GameState, Thrown>)
      requires Valid()
      ensures nextAction != OccupyTile || board.IsEmpty() ==> r == Failure(IllegalArgument)
      ensures r.Success? ==> occupant.None? || board.WithOccupant(occupant.value).Success?
      ensures r.Success? ==> r.value.Follows(this)
      ensures r.Success? ==> r.value.nextAction == PlaceTile || r.value.nextAction == EndGame
      ensures r.Success? && r.value.nextAction == PlaceTile ==> r.value.board.CouldPlaceTile(r.value.tileToPlace.value)
      ensures r.Success? ==> r.value.board.orderedTileIndexes == board.orderedTileIndexes
    {
      var _ :- CheckArgument(nextAction == OccupyTile);
      var _ :- CheckArgument(!board.IsEmpty());
      var newBoard :- if occupant.None? then Success(board) else board.WithOccupant(occupant.value);
      GameState(players, tileDecks, None, newBoard, OccupyTile, messageBoard).TurnFinished(order)
    }

    /**
     * withTurnFinishedIfOccupationImpossible: the state stays as it is when some occupant can
     * go on the last placed tile; otherwise the turn ends.
     */
    function TurnFinishedIfOccupationImpossible(order: IterationOrder): (r: Result<GameState, Thrown>)
      requires Valid()
      ensures nextAction != OccupyTile || board.IsEmpty() ==> r == Failure(IllegalArgument)
      ensures r.Success? ==> LastTilePotentialOccupants().Success? && r.value.Follows(this)
      ensures r.Success? ==> (r.value.nextAction == OccupyTile <==> LastTilePotentialOccupants().value != {})
      ensures r.Success? && r.value.nextAction == OccupyTile ==> r.value == this
      ensures r.Success? ==> r.value.nextAction in {OccupyTile, PlaceTile, EndGame}
      ensures r.Success? && r.value.nextAction == PlaceTile ==> r.value.board.CouldPlaceTile(r.value.tileToPlace.value)
      ensures r.Success? ==> r.value.board.orderedTileIndexes == board.orderedTileIndexes
      ensures r.Failure? ==> r.error == IllegalArgument
    {
      var _ :- CheckArgument(nextAction == OccupyTile);
      var potential :- LastTilePotentialOccupants();
      if potential == {} then TurnFinished(order) else Success(this)
    }

    /**
     * withTurnFinished: the closed forests and rivers are scored and their pawns go back;
     * then the same player may place a menhir tile, or the next player a normal tile, or the
     * game ends with the final scoring.
     */
    function TurnFinished(order: IterationOrder): (r: Result<GameState, Thrown>)
      requires Valid()
      ensures nextAction != OccupyTile || board.IsEmpty() ==> r == Failure(IllegalArgument)
      ensures r.Success? ==> r.value.Follows(this)
      ensures r.Success? ==> r.value.nextAction == PlaceTile || r.value.nextAction == EndGame
      ensures r.Success? && r.value.nextAction == PlaceTile ==> r.value.board.CouldPlaceTile(r.value.tileToPlace.value)
      ensures r.Success? ==> r.value.board.orderedTileIndexes == board.orderedTileIndexes
      ensures r.Failure? ==> r.error == IllegalArgument
    {
      var _ :- CheckArgument(nextAction == OccupyTile);
      var _ :- CheckArgument(!board.IsEmpty());
      var ended :- ClosedAreasScored(board, messageBoard, order);
      TurnAfterScoring(ended, order)
    }

    /**
     * The end of withTurnFinished, once the closed areas are scored. When the last tile is a
     * normal one that closed a forest with a menhir, the menhir deck is drawn until a tile the
     * board can place; if one is found, the same player places it. Otherwise the next player
     * places the first normal tile that fits.
     */
    function TurnAfterScoring(ended: TurnEnd, order: IterationOrder): (r: Result<GameState, Thrown>)
      requires Valid() && ended.board.Valid() && !ended.board.IsEmpty()
      ensures r.Success? ==> r.value.Valid() && (r.value.players == players || r.value.players == Rotated(players))
      ensures r.Success? ==> r.value.messageBoard.textMaker == ended.messages.textMaker && ended.messages.messages <= r.value.messageBoard.messages
      ensures r.Success? ==> r.value.nextAction == PlaceTile || r.value.nextAction == EndGame
      ensures r.Success? && r.value.nextAction == PlaceTile ==> r.value.board == ended.board && r.value.board.CouldPlaceTile(r.value.tileToPlace.value)
      ensures r.Success? ==> r.value.board.orderedTileIndexes == ended.board.orderedTileIndexes
      ensures r.Failure? ==> r.error == IllegalArgument
    {
      if IsMenhirTurn(ended) then
        var decks := tileDecks.WithTopTileDrawnUntil(Menhir, CouldPlace(ended.board));
        if decks.DeckSize(Menhir) > 0 then
          DrawnTopCanBePlaced(tileDecks, Menhir, ended.board);
          var messages := ended.messages.WithClosedForestWithMenhir(players[0], ended.menhirForest.value).value;
          Success(GameState(players, decks.WithTopTileDrawn(Menhir).value, decks.TopTile(Menhir), ended.board, PlaceTile, messages))
        else NextPlayerTurn(decks, ended.board, ended.messages, order)
      else NextPlayerTurn(tileDecks, ended.board, ended.messages, order)
    }

    /**
     * The normal deck is drawn until a tile the board can place: the next player places it,
     * or, when no tile fits, the game ends with the final scoring.
     */
    function NextPlayerTurn(decks: TileDecks, newBoard: Board.Board, messages: MessageBoard, order: IterationOrder): (r: Result<GameState, Thrown>)
      requires |players| >= MinPlayerCount && newBoard.Valid()
      ensures r.Success? ==> r.value.Valid() && (r.value.players == players || r.value.players == Rotated(players))
      ensures r.Success? ==> r.value.messageBoard.textMaker == messages.textMaker && messages.messages <= r.value.messageBoard.messages
      ensures r.Success? ==> r.value.nextAction == PlaceTile || r.value.nextAction == EndGame
      ensures r.Success? && r.value.nextAction == PlaceTile ==> r.value.board == newBoard && r.value.board.CouldPlaceTile(r.value.tileToPlace.value)
      ensures r.Success? ==> r.value.board.orderedTileIndexes == newBoard.orderedTileIndexes
      ensures r.Failure? ==> r.error == IllegalArgument
    {
      var drawn := decks.WithTopTileDrawnUntil(Normal, CouldPlace(newBoard));
      if drawn.DeckSize(Normal) > 0 then
        DrawnTopCanBePlaced(decks, Normal, newBoard);
        Success(GameState(Rotated(players), drawn.WithTopTileDrawn(Normal).value, drawn.TopTile(Normal), newBoard, PlaceTile, messages))
      else
        GameState(players, drawn, None, newBoard, EndGame, messages).FinalPointsCounted(order)
    }

    /**
     * withFinalPointsCounted: each meadow area is scored, its deer cancelled as the tigers and
     * the pit traps decide, then each river system with its raft; the players with the most
     * points win, and the game ends.
     */
    function FinalPointsCounted(order: IterationOrder): (r: Result<GameState, Thrown>)
      requires |players| >= MinPlayerCount && board.Valid()
      ensures r.Success? ==> r.value.Valid() && r.value.nextAction == EndGame && r.value.tileToPlace == None
      ensures r.Success? ==> r.value.players == players && r.value.tileDecks == tileDecks
      ensures r.Success? ==> r.value.board == board.WithMoreCancelledAnimals(r.value.board.cancelledAnimals)
      ensures r.Success? ==> r.value.messageBoard.textMaker == messageBoard.textMaker && messageBoard.messages < r.value.messageBoard.messages
      ensures r.Failure? ==> r.error == IllegalArgument
    {
      var tally :- ScoredMeadows(board, Tally(board, messageBoard), order.areas(board.MeadowAreas()), order);
      var messages :- ScoredRiverSystems(tally.messages, order.areas(tally.board.RiverSystemAreas()));
      var withWinners :- WinnersAnnounced(messages);
      Success(GameState(players, tileDecks, None, tally.board, EndGame, withWinners))
    }

    /** The imperative withFinalPointsCounted: a loop over the meadow areas, then one over the river systems. */
    method CountFinalPoints(order: IterationOrder) returns (r: Result<GameState, Thrown>)
      requires |players| >= MinPlayerCount && board.Valid()
      ensures r == FinalPointsCounted(order)
    {
      var meadows := order.areas(board.MeadowAreas());
      var tally := Tally(board, messageBoard);
      var i := 0;
      while i < |meadows|
        invariant 0 <= i <= |meadows|
        invariant tally.board.Valid()
        invariant ScoredMeadows(board, Tally(board, messageBoard), meadows, order) == ScoredMeadows(board, tally, meadows[i..], order)
      {
        assert meadows[i..][1..] == meadows[i + 1..];
        var next := ScoredMeadow(board, tally, meadows[i], order);
        if next.Failure? {
          return Failure(next.error);
        }
        tally := next.value;
        i := i + 1;
      }
      var riverSystems := order.areas(tally.board.RiverSystemAreas());
      var messages := tally.messages;
      var j := 0;
      while j < |riverSystems|
        invariant 0 <= j <= |riverSystems|
        invariant ScoredRiverSystems(tally.messages, riverSystems) == ScoredRiverSystems(messages, riverSystems[j..])
      {
        assert riverSystems[j..][1..] == riverSystems[j + 1..];
        var scored := messages.WithScoredRiverSystem(riverSystems[j]).value;
        if riverSystems[j].ZoneWithSpecialPower(Raft).Some? {
          var rafted := scored.WithScoredRaft(riverSystems[j]);
          if rafted.Failure? {
            return Failure(rafted.error);
          }
          scored := rafted.value;
        }
        messages := scored;
        j := j + 1;
      }
      var withWinners := WinnersAnnounced(messages);
      if withWinners.Failure? {
        return Failure(withWinners.error);
      }
      return Success(GameState(players, tileDecks, None, tally.board, EndGame, withWinners.value));
    }
  }

  /** The record's constructor: refused with fewer than two players, or a tile to place that does not match the next action. */
  function NewGameState(players: seq<PlayerColor>, tileDecks: TileDecks, tileToPlace: Option<Tile>, board: Board.Board, nextAction: Action, messageBoard: MessageBoard): (r: Result<GameState, Thrown>)
    ensures r.Success? <==> |players| >= MinPlayerCount && (tileToPlace.Some? <==> nextAction == PlaceTile)
    ensures r.Success? ==> r.value == GameState(players, tileDecks, tileToPlace, board, nextAction, messageBoard)
    ensures r.Success? && board.Valid() ==> r.value.Valid()
    ensures r.Failure? ==> r.error == IllegalArgument
  {
    if |players| < MinPlayerCount || (tileToPlace.Some? != (nextAction == PlaceTile)) then Failure(IllegalArgument)
    else Success(GameState(players, tileDecks, tileToPlace, board, nextAction, messageBoard))
  }

  /** initial: no tile to place, the empty board, an empty message board, and the game to start. */
  function Initial(players: seq<PlayerColor>, tileDecks: TileDecks, textMaker: TextMakerFr): (r: Result<GameState, Thrown>)
    ensures r.Success? <==> |players| >= MinPlayerCount
    ensures r.Success? ==> r.value.Valid() && r.value.nextAction == StartGame && r.value.board.IsEmpty()
    ensures r.Success? ==> r.value.players == players && r.value.tileDecks == tileDecks && r.value.tileToPlace == None
    ensures r.Success? ==> r.value.messageBoard == MessageBoard(textMaker, [])
    ensures r.Failure? ==> r.error == IllegalArgument
  {
    Board.EmptyIsValid();
    NewGameState(players, tileDecks, None, Board.Empty, StartGame, MessageBoard(textMaker, []))
  }

  /** Collections.rotate by -1: the first player goes last, the others move up by one. */
  function Rotated(players: seq<PlayerColor>): (r: seq<PlayerColor>)
    requires players != []
    ensures |r| == |players| && multiset(r) == multiset(players)
  {
    assert players == [players[0]] + players[1..];
    players[1..] + [players[0]]
  }

  /** The players after k normal turns. */
  function RotatedTimes(players: seq<PlayerColor>, k: nat): (r: seq<PlayerColor>)
    requires players != []
    ensures |r| == |players|
  {
    if k == 0 then players else Rotated(RotatedTimes(players, k - 1))
  }

  /** After k normal turns, k at most the number of players, the first k players have moved behind the others. */
  lemma {:induction false} RotationsShift(players: seq<PlayerColor>, k: nat)
    requires players != [] && k <= |players|
    ensures RotatedTimes(players, k) == players[k..] + players[..k]
  {
    if k > 0 {
      RotationsShift(players, k - 1);
      var previous := players[k - 1..] + players[..k - 1];
      assert previous[0] == players[k - 1];
      assert previous[1..] == players[k..] + players[..k - 1];
      assert players[..k] == players[..k - 1] + [players[k - 1]];
    }
  }

  /** Each player in turn is the current one, and after as many normal turns as players the order is back. */
  lemma EveryPlayerPlaysInTurn(players: seq<PlayerColor>)
    requires players != []
    ensures RotatedTimes(players, |players|) == players
    ensures forall k :: 0 <= k < |players| ==> RotatedTimes(players, k)[0] == players[k]
  {
    RotationsShift(players, |players|);
    assert players[|players|..] + players[..|players|] == players;
    forall k | 0 <= k < |players|
      ensures RotatedTimes(players, k)[0] == players[k]
    {
      RotationsShift(players, k);
    }
  }

  /** The special zone of the tile is a lake with a logboat. */
  predicate IsLogboat(tile: PlacedTile) {
    var zone := tile.SpecialPowerZone();
    zone.Some? && zone.value.LakeZone? && zone.value.lake.specialPower == Some(Logboat)
  }

  /** The special zone of the tile has a shaman. */
  predicate IsShaman(tile: PlacedTile) {
    var zone := tile.SpecialPowerZone();
    zone.Some? && zone.value.SpecialPower() == Some(Shaman)
  }

  /** The special zone of the tile is a meadow with a hunting trap. */
  predicate IsHuntingTrap(tile: PlacedTile) {
    var zone := tile.SpecialPowerZone();
    zone.Some? && zone.value.MeadowZone? && zone.value.meadow.specialPower == Some(HuntingTrap)
  }

  /** The three powers withPlacedTile acts on exclude one another. */
  lemma PowersAreExclusive(tile: PlacedTile)
    ensures !(IsLogboat(tile) && IsShaman(tile))
    ensures !(IsLogboat(tile) && IsHuntingTrap(tile))
    ensures !(IsShaman(tile) && IsHuntingTrap(tile))
  {
  }

  /**
   * The scoring of withTurnFinished: each forest the last tile closed, in iteration order,
   * the last of them with a menhir remembered, then each river it closed; the pawns standing
   * in those forests and rivers go back to their owners.
   */
  function ClosedAreasScored(board: Board.Board, messages: MessageBoard, order: IterationOrder): (r: Result<TurnEnd, Thrown>)
    requires board.Valid()
    ensures r.Success? ==> board.ForestsClosedByLastTile().Success? && board.RiversClosedByLastTile().Success?
    ensures r.Success? ==> r.value.board.Valid() && r.value.board.orderedTileIndexes == board.orderedTileIndexes
    ensures r.Success? ==> r.value.board.Occupants() <= board.Occupants()
    ensures r.Success? && order.Enumerates() && r.value.menhirForest.Some? ==>
      r.value.menhirForest.value in board.ForestsClosedByLastTile().value && HasMenhir(r.value.menhirForest.value)
    ensures r.Success? && order.Enumerates() ==>
      (r.value.menhirForest.None? <==> forall f :: f in board.ForestsClosedByLastTile().value ==> !HasMenhir(f))
    ensures r.Success? ==> r.value.messages.textMaker == messages.textMaker && messages.messages <= r.value.messages.messages
    ensures r.Success? ==>
      var forests := order.areas(board.ForestsClosedByLastTile().value);
      var rivers := order.areas(board.RiversClosedByLastTile().value);
      && ScoredForests(messages, forests).Success?
      && ScoredRivers(ScoredForests(messages, forests).value, rivers) == Success(r.value.messages)
      && board.WithoutGatherersOrFishersIn(forests, rivers) == Success(r.value.board)
    ensures r.Failure? ==> r.error == IllegalArgument
  {
    var closedForests :- board.ForestsClosedByLastTile();
    var forests := order.areas(closedForests);
    var afterForests :- ScoredForests(messages, forests);
    var closedRivers :- board.RiversClosedByLastTile();
    var rivers := order.areas(closedRivers);
    var afterRivers :- ScoredRivers(afterForests, rivers);
    var newBoard :- board.WithoutGatherersOrFishersIn(forests, rivers);
    assert order.Enumerates() ==> forall f :: f in closedForests <==> f in forests;
    Success(TurnEnd(newBoard, LastWithMenhir(forests), afterRivers))
  }

  /** The loop over the closed forests of withTurnFinished: each is scored, and the last with a menhir kept. */
  method ScoreForests(messages: MessageBoard, forests: seq<Area>) returns (r: Result<MessageBoard, Thrown>, menhirForest: Option<Area>)
    ensures r == ScoredForests(messages, forests)
    ensures r.Success? ==> menhirForest == LastWithMenhir(forests)
  {
    menhirForest := None;
    var newMessages := messages;
    var i := 0;
    while i < |forests|
      invariant 0 <= i <= |forests|
      invariant menhirForest == LastWithMenhir(forests[..i])
      invariant ScoredForests(messages, forests) == ScoredForests(newMessages, forests[i..])
    {
      LastWithMenhirStep(forests, i);
      ScoredForestsStep(newMessages, forests[i..]);
      assert forests[i..][1..] == forests[i + 1..];
      var forest := forests[i];
      if HasMenhir(forest) {
        menhirForest := Some(forest);
      }
      var scored := newMessages.WithScoredForest(forest);
      if scored.Failure? {
        return Failure(scored.error), menhirForest;
      }
      newMessages := scored.value;
      i := i + 1;
    }
    assert forests[..i] == forests;
    return Success(newMessages), menhirForest;
  }

  /** One step of ScoredForests: the first forest is scored, then the others from the board that gives. */
  lemma ScoredForestsStep(messages: MessageBoard, forests: seq<Area>)
    requires forests != []
    ensures messages.WithScoredForest(forests[0]).Failure? ==> ScoredForests(messages, forests) == Failure(IllegalArgument)
    ensures messages.WithScoredForest(forests[0]).Success? ==>
      ScoredForests(messages, forests) == ScoredForests(messages.WithScoredForest(forests[0]).value, forests[1..])
  {
  }

  /** One step of ScoredRivers. */
  lemma ScoredRiversStep(messages: MessageBoard, rivers: seq<Area>)
    requires rivers != []
    ensures messages.WithScoredRiver(rivers[0]).Failure? ==> ScoredRivers(messages, rivers) == Failure(IllegalArgument)
    ensures messages.WithScoredRiver(rivers[0]).Success? ==>
      ScoredRivers(messages, rivers) == ScoredRivers(messages.WithScoredRiver(rivers[0]).value, rivers[1..])
  {
  }

  /** The last forest with a menhir among one more forest: that one if it has a menhir. */
  lemma LastWithMenhirStep(forests: seq<Area>, i: int)
    requires 0 <= i < |forests|
    ensures LastWithMenhir(forests[..i + 1]) == if HasMenhir(forests[i]) then Some(forests[i]) else LastWithMenhir(forests[..i])
  {
    assert forests[..i + 1][..i] == forests[..i];
  }

  /** The loop over the closed rivers of withTurnFinished. */
  method ScoreRivers(messages: MessageBoard, rivers: seq<Area>) returns (r: Result<MessageBoard, Thrown>)
    ensures r == ScoredRivers(messages, rivers)
  {
    var newMessages := messages;
    var j := 0;
    while j < |rivers|
      invariant 0 <= j <= |rivers|
      invariant ScoredRivers(messages, rivers) == ScoredRivers(newMessages, rivers[j..])
    {
      ScoredRiversStep(newMessages, rivers[j..]);
      assert rivers[j..][1..] == rivers[j + 1..];
      var scored := newMessages.WithScoredRiver(rivers[j]);
      if scored.Failure? {
        return Failure(scored.error);
      }
      newMessages := scored.value;
      j := j + 1;
    }
    return Success(newMessages);
  }

  /** The scoring part of withTurnFinished, as two loops over the closed areas. */
  method ScoreClosedAreas(board: Board.Board, messages: MessageBoard, order: IterationOrder) returns (r: Result<TurnEnd, Thrown>)
    requires board.Valid()
    ensures r == ClosedAreasScored(board, messages, order)
  {
    var closedForests := board.ForestsClosedByLastTile();
    if closedForests.Failure? {
      return Failure(closedForests.error);
    }
    var forests := order.areas(closedForests.value);
    var afterForests, menhirForest := ScoreForests(messages, forests);
    if afterForests.Failure? {
      return Failure(afterForests.error);
    }
    var closedRivers := board.RiversClosedByLastTile();
    if closedRivers.Failure? {
      return Failure(closedRivers.error);
    }
    var rivers := order.areas(closedRivers.value);
    var afterRivers := ScoreRivers(afterForests.value, rivers);
    if afterRivers.Failure? {
      return Failure(afterRivers.error);
    }
    var newBoard := board.BuildWithoutGatherersOrFishersIn(forests, rivers);
    if newBoard.Failure? {
      return Failure(newBoard.error);
    }
    return Success(TurnEnd(newBoard.value, menhirForest, afterRivers.value));
  }

  /** The last message of the game: the players with the most points win, with those points. */
  function WinnersAnnounced(messages: MessageBoard): (r: Result<MessageBoard, Thrown>)
    ensures r.Success? <==> messages.Points() != map[]
    ensures r.Success? ==> messages.AppendedTo(r.value, 0, {}, {})
    ensures r.Success? ==> r.value.Points() == messages.Points()
    ensures r.Success? ==> messages.textMaker.PlayersWon(Winners(messages.Points()), MaxPoints(messages.Points())).Success?
    ensures r.Success? ==>
      r.value.messages[|messages.messages|].text == messages.textMaker.PlayersWon(Winners(messages.Points()), MaxPoints(messages.Points())).value
    ensures r.Failure? ==> r.error == IllegalArgument
  {
    var points := messages.Points();
    WinnersExistOnceScored(points);
    var r := messages.WithWinners(Winners(points), MaxPoints(points));
    if r.Success? then
      AppendNoScorerKeepsPoints(messages, r.value, {});
      r
    else r
  }

  /**
   * The game ends on a message that scores nothing and names as winners the players whose
   * points, counted over all the messages, nobody exceeds; somebody must have scored.
   */
  lemma FinalMessageNamesWinners(g: GameState, order: IterationOrder)
    requires |g.players| >= MinPlayerCount && g.board.Valid() && g.FinalPointsCounted(order).Success?
    ensures var final := g.FinalPointsCounted(order).value.messageBoard;
      var points := final.Points();
      && |final.messages| > 0
      && final.messages[|final.messages| - 1].points == 0
      && final.messages[|final.messages| - 1].scorers == {}
      && final.messages[|final.messages| - 1].text == final.textMaker.PlayersWon(Winners(points), MaxPoints(points)).value
      && points != map[]
      && forall c :: c in Winners(points) <==> c in points && forall d :: d in points ==> points[d] <= points[c]
  {
    var meadows := order.areas(g.board.MeadowAreas());
    var tally := ScoredMeadows(g.board, Tally(g.board, g.messageBoard), meadows, order).value;
    var messages := ScoredRiverSystems(tally.messages, order.areas(tally.board.RiverSystemAreas())).value;
    var final := WinnersAnnounced(messages).value;
    assert g.FinalPointsCounted(order).value.messageBoard == final;
    WinnersHaveTheMostPoints(final.Points());
  }

  /**
   * The final count appends, in order, the scores of the meadow areas (each counted once its
   * deer, and those of the areas before it, are cancelled), those of the river systems with
   * their rafts, and the winners' message, worth nothing; the board has lost exactly the deer
   * of the meadow areas.
   */
  lemma FinalScoresInOrder(g: GameState, order: IterationOrder)
    requires |g.players| >= MinPlayerCount && g.board.Valid() && g.FinalPointsCounted(order).Success?
    ensures var final := g.FinalPointsCounted(order).value;
      var meadows := order.areas(g.board.MeadowAreas());
      && MeadowsDeer(g.board, meadows, order).Success?
      && final.board == g.board.WithMoreCancelledAnimals(MeadowsDeer(g.board, meadows, order).value)
      && MeadowsScores(g.board, g.board, meadows, order).Success?
      && Extends(g.messageBoard.messages, final.messageBoard.messages,
           MeadowsScores(g.board, g.board, meadows, order).value
           + RiverSystemScores(order.areas(final.board.RiverSystemAreas()))
           + [Score(0, {}, {})])
  {
    var meadows := order.areas(g.board.MeadowAreas());
    var tally := ScoredMeadows(g.board, Tally(g.board, g.messageBoard), meadows, order).value;
    var riverSystems := order.areas(tally.board.RiverSystemAreas());
    var messages := ScoredRiverSystems(tally.messages, riverSystems).value;
    var final := WinnersAnnounced(messages).value;
    assert g.FinalPointsCounted(order).value == GameState(g.players, g.tileDecks, None, tally.board, EndGame, final);
    AppendedScore(messages, final, 0, {}, {});
    ExtendsTrans(g.messageBoard.messages, tally.messages.messages, messages.messages,
      MeadowsScores(g.board, g.board, meadows, order).value, RiverSystemScores(riverSystems));
    ExtendsTrans(g.messageBoard.messages, messages.messages, final.messages,
      MeadowsScores(g.board, g.board, meadows, order).value + RiverSystemScores(riverSystems), [Score(0, {}, {})]);
  }

  /** A lake with a logboat: the player scores two points per lake of its river system, and nothing else changes. */
  lemma LogboatScoresLakes(g: GameState, tile: PlacedTile, newBoard: Board.Board, order: IterationOrder)
    requires g.Valid() && newBoard.Valid() && IsLogboat(tile)
    ensures var r := g.PowerActs(tile, newBoard, order);
      var riverSystem := newBoard.RiverSystemArea(tile.SpecialPowerZone().value);
      && (r.Success? <==> riverSystem.Success? && LakeCount(riverSystem.value) > 0)
      && (r.Success? ==> r.value.board == newBoard && r.value.nextAction == OccupyTile)
      && (r.Success? ==> g.messageBoard.AppendedTo(r.value.messageBoard, 2 * LakeCount(riverSystem.value), {g.players[0]}, riverSystem.value.TileIds()))
  {
    PowersAreExclusive(tile);
  }

  /**
   * A meadow with a hunting trap: the player scores the adjacent meadow without the deer the
   * tigers eat, and afterwards no animal of that meadow counts any more.
   */
  lemma HuntingTrapEmptiesMeadow(g: GameState, tile: PlacedTile, newBoard: Board.Board, order: IterationOrder)
    requires g.Valid() && newBoard.Valid() && IsHuntingTrap(tile)
    ensures var r := g.PowerActs(tile, newBoard, order);
      var adjacentMeadow := newBoard.AdjacentMeadow(tile.pos, tile.SpecialPowerZone().value.meadow);
      && (r.Success? <==> adjacentMeadow.Success?)
      && (r.Success? ==> r.value.nextAction == OccupyTile && Animals(adjacentMeadow.value, r.value.board.cancelledAnimals) == {})
      && (r.Success? ==>
           var points := MeadowPoints(Animals(adjacentMeadow.value, DeersToCancel(g.board, adjacentMeadow.value, order)));
           if points <= 0 then r.value.messageBoard == g.messageBoard
           else g.messageBoard.AppendedTo(r.value.messageBoard, points, {g.players[0]}, adjacentMeadow.value.TileIds()))
  {
    PowersAreExclusive(tile);
  }

  /** A shaman: the player is to take back a pawn exactly when they have one on the board; nothing is scored. */
  lemma ShamanRetakesPawn(g: GameState, tile: PlacedTile, newBoard: Board.Board, order: IterationOrder)
    requires g.Valid() && newBoard.Valid() && IsShaman(tile)
    ensures var r := g.PowerActs(tile, newBoard, order);
      && r.Success? && r.value.board == newBoard && r.value.messageBoard == g.messageBoard
      && (r.value.nextAction == RetakePawn <==> newBoard.OccupantCount(g.players[0], Pawn) > 0)
  {
    PowersAreExclusive(tile);
  }

  /** Without logboat or hunting trap, placing a tile scores nothing and cancels no animal. */
  lemma OtherTilesScoreNothing(g: GameState, tile: PlacedTile, newBoard: Board.Board, order: IterationOrder)
    requires g.Valid() && newBoard.Valid() && !IsLogboat(tile) && !IsHuntingTrap(tile)
    ensures var r := g.PowerActs(tile, newBoard, order);
      r.Success? && r.value.board == newBoard && r.value.messageBoard == g.messageBoard
  {
  }

  /**
   * When the tile at index i is the first of the normal deck the board can place, the next
   * player gets it; the tiles before it are discarded and those after it stay in order.
   */
  lemma NextPlayerGetsFirstFittingTile(g: GameState, decks: TileDecks, newBoard: Board.Board, messages: MessageBoard, order: IterationOrder, i: int)
    requires |g.players| >= MinPlayerCount && newBoard.Valid() && FirstPlaceable(decks.normalTiles, newBoard, i)
    ensures g.NextPlayerTurn(decks, newBoard, messages, order)
      == Success(GameState(Rotated(g.players), decks.WithDeck(Normal, decks.normalTiles[i + 1..]), Some(decks.normalTiles[i]), newBoard, PlaceTile, messages))
  {
    DrawnFirstMatch(decks, Normal, CouldPlace(newBoard), i);
  }

  /** When no tile of the normal deck fits, the deck is emptied and the game ends with the final scoring. */
  lemma NoFittingTileEndsGame(g: GameState, decks: TileDecks, newBoard: Board.Board, messages: MessageBoard, order: IterationOrder)
    requires |g.players| >= MinPlayerCount && newBoard.Valid() && !SomePlaceable(decks.normalTiles, newBoard)
    ensures g.NextPlayerTurn(decks, newBoard, messages, order)
      == GameState(g.players, decks.WithDeck(Normal, []), None, newBoard, EndGame, messages).FinalPointsCounted(order)
  {
    DrawnNoMatch(decks, Normal, CouldPlace(newBoard));
  }

  /**
   * A forest with a menhir closed by a normal tile, when the tile at index i is the first of
   * the menhir deck the board can place: the same player gets it and a message says why.
   */
  lemma MenhirTurnGetsFirstFittingTile(g: GameState, ended: TurnEnd, order: IterationOrder, i: int)
    requires g.Valid() && ended.board.Valid() && !ended.board.IsEmpty()
    requires IsMenhirTurn(ended) && FirstPlaceable(g.tileDecks.menhirTiles, ended.board, i)
    ensures g.TurnAfterScoring(ended, order)
      == Success(GameState(g.players, g.tileDecks.WithDeck(Menhir, g.tileDecks.menhirTiles[i + 1..]), Some(g.tileDecks.menhirTiles[i]), ended.board, PlaceTile,
           ended.messages.WithClosedForestWithMenhir(g.players[0], ended.menhirForest.value).value))
  {
    DrawnFirstMatch(g.tileDecks, Menhir, CouldPlace(ended.board), i);
  }

  /** Without a menhir tile that fits, the menhir deck is emptied and the next player's turn follows. */
  lemma MenhirTurnWithoutFittingTile(g: GameState, ended: TurnEnd, order: IterationOrder)
    requires g.Valid() && ended.board.Valid() && !ended.board.IsEmpty()
    requires IsMenhirTurn(ended) && !SomePlaceable(g.tileDecks.menhirTiles, ended.board)
    ensures g.TurnAfterScoring(ended, order) == g.NextPlayerTurn(g.tileDecks.WithDeck(Menhir, []), ended.board, ended.messages, order)
  {
    DrawnNoMatch(g.tileDecks, Menhir, CouldPlace(ended.board));
  }
}
