/**
 * The message board: the messages of the game, oldest first, each with its points, its scorers
 * and the tiles it is about. Every operation returns the board unchanged or the board with
 * exactly one message appended; the checks of the scoring formulas and of the texts surface as
 * IllegalArgumentException failures.
 */
module Messages {
  import opened Wrappers
  import opened Zones
  import opened Areas
  import opened Points
  import opened TextMaker

  datatype Message = Message(text: string, points: int, scorers: set<PlayerColor>, tileIds: set<int>)

  /** The Message constructor: negative points are rejected. */
  function NewMessage(text: string, points: int, scorers: set<PlayerColor>, tileIds: set<int>): (r: Result<Message, Thrown>)
    ensures r.Success? <==> points >= 0
    ensures r.Success? ==> r.value == Message(text, points, scorers, tileIds)
    ensures r.Failure? ==> r.error == IllegalArgument
  {
    var _ :- CheckArgument(points >= 0);
    Success(Message(text, points, scorers, tileIds))
  }

  /** The three ways a meadow is scored; a hunting trap credits the player who placed it. */
  datatype MeadowMessageType = HuntingTrapMessage(placer: PlayerColor) | PitTrapMessage | MeadowMessage

  /** The number of animals of one kind. */
  function KindCount(animals: set<Animal>, kind: AnimalKind): nat {
    |set a | a in animals && a.kind == kind|
  }

  /** forMeadowAnimalCount: the kinds present, each with its number of animals. */
  function AnimalCount(animals: set<Animal>): (r: map<AnimalKind, int>)
    ensures forall k :: k in r <==> exists a :: a in animals && a.kind == k
    ensures forall k :: k in r ==> r[k] == KindCount(animals, k) > 0
  {
    var present := map k | k in {Mammoth, Aurochs, Deer, Tiger} && KindCount(animals, k) > 0 :: KindCount(animals, k);
    forall k ensures k in present <==> exists a :: a in animals && a.kind == k {
      var ofKind := set b | b in animals && b.kind == k;
      if a :| a in animals && a.kind == k {
        assert a in ofKind;
        assert k.Mammoth? || k.Aurochs? || k.Deer? || k.Tiger?;
      }
      if k in present {
        assert |ofKind| > 0;
        var a :| a in ofKind;
      }
    }
    present
  }

  /** getOrDefault(kind, 0) on the animal count. */
  function CountOf(counts: map<AnimalKind, int>, kind: AnimalKind): int {
    if kind in counts then counts[kind] else 0
  }

  /** forMeadowTotalAnimals: the meadow points of the mammoths, aurochs and deer; tigers are worth nothing. */
  function MeadowPoints(animals: set<Animal>): (p: int)
    ensures p == 3 * KindCount(animals, Mammoth) + 2 * KindCount(animals, Aurochs) + KindCount(animals, Deer)
    ensures p > 0 <==> exists a :: a in animals && a.kind in {Mammoth, Aurochs, Deer}
  {
    var counts := AnimalCount(animals);
    forall k ensures CountOf(counts, k) == KindCount(animals, k) {
      if k !in counts {
        assert (set a | a in animals && a.kind == k) == {};
      }
    }
    forall a | a in animals && a.kind in {Mammoth, Aurochs, Deer}
      ensures KindCount(animals, a.kind) > 0
    {
      assert a in set b | b in animals && b.kind == a.kind;
    }
    ForMeadow(CountOf(counts, Mammoth), CountOf(counts, Aurochs), CountOf(counts, Deer)).value
  }

  /**
   * The points of every player named in a message, summed over the messages; players never
   * named have no entry.
   */
  function Total(messages: seq<Message>, player: PlayerColor): int {
    if messages == [] then 0
    else
      var last := messages[|messages| - 1];
      Total(messages[..|messages| - 1], player) + (if player in last.scorers then last.points else 0)
  }

  /** One message merged into the points map: its points are added to each of its scorers. */
  function MergePoints(acc: map<PlayerColor, int>, m: Message): (r: map<PlayerColor, int>)
    ensures r.Keys == acc.Keys + m.scorers
  {
    map c | c in acc.Keys + m.scorers :: (if c in acc then acc[c] else 0) + (if c in m.scorers then m.points else 0)
  }

  /** The points map of the messages, as the stream collects it: one merge per message. */
  function PointsOf(messages: seq<Message>): map<PlayerColor, int> {
    if messages == [] then map[] else MergePoints(PointsOf(messages[..|messages| - 1]), messages[|messages| - 1])
  }

  /** The points map holds exactly the players some message names, each with its total. */
  lemma {:induction false} PointsOfIsTotal(messages: seq<Message>)
    ensures forall c :: c in PointsOf(messages) <==> exists i :: 0 <= i < |messages| && c in messages[i].scorers
    ensures forall c :: c in PointsOf(messages) ==> PointsOf(messages)[c] == Total(messages, c)
  {
    if messages != [] {
      var front := messages[..|messages| - 1];
      var last := messages[|messages| - 1];
      PointsOfIsTotal(front);
      forall c ensures c in PointsOf(messages) <==> exists i :: 0 <= i < |messages| && c in messages[i].scorers {
        if c in PointsOf(front) {
          var i :| 0 <= i < |front| && c in front[i].scorers;
          assert messages[i] == front[i];
        }
        if i :| 0 <= i < |messages| && c in messages[i].scorers {
          if i < |front| {
            assert front[i] == messages[i];
          }
        }
      }
      forall c | c in PointsOf(messages) ensures PointsOf(messages)[c] == Total(messages, c) {
        if c !in PointsOf(front) {
          ZeroTotal(front, c);
        }
      }
    }
  }

  /** A player no message names has no points. */
  lemma {:induction false} ZeroTotal(messages: seq<Message>, player: PlayerColor)
    requires forall i :: 0 <= i < |messages| ==> player !in messages[i].scorers
    ensures Total(messages, player) == 0
  {
    if messages != [] {
      ZeroTotal(messages[..|messages| - 1], player);
    }
  }

  datatype MessageBoard = MessageBoard(textMaker: TextMakerFr, messages: seq<Message>) {

    /** b is this board with one message appended, with these points, scorers and tiles. */
    predicate AppendedTo(b: MessageBoard, points: int, scorers: set<PlayerColor>, tileIds: set<int>) {
      && b.textMaker == textMaker
      && |b.messages| == |messages| + 1
      && b.messages[..|messages|] == messages
      && b.messages[|messages|].points == points
      && b.messages[|messages|].scorers == scorers
      && b.messages[|messages|].tileIds == tileIds
    }

    /** withNewMessage: the message is appended after the earlier ones. */
    function WithNewMessage(text: string, count: int, scorers: set<PlayerColor>, tileIds: set<int>): (r: Result<MessageBoard, Thrown>)
      ensures r.Success? <==> count >= 0
      ensures r.Success? ==> AppendedTo(r.value, count, scorers, tileIds) && r.value.messages[|messages|].text == text
      ensures r.Failure? ==> r.error == IllegalArgument
    {
      var m :- NewMessage(text, count, scorers, tileIds);
      Success(MessageBoard(textMaker, messages + [m]))
    }

    /** points: each named player with the sum of the points of the messages naming them. */
    function Points(): (r: map<PlayerColor, int>)
      ensures forall c :: c in r <==> exists i :: 0 <= i < |messages| && c in messages[i].scorers
      ensures forall c :: c in r ==> r[c] == Total(messages, c)
    {
      PointsOfIsTotal(messages);
      PointsOf(messages)
    }

    /**
     * The meadow scoring shared by the meadow, the hunting trap and the pit trap: nothing when
     * the uncancelled animals are worth nothing; nothing for an unoccupied meadow unless it is
     * a hunting trap, which credits its placer alone.
     */
    function WithGenericScoredMeadow(messageType: MeadowMessageType, meadow: Area, cancelledAnimals: set<Animal>): (r: Result<MessageBoard, Thrown>)
      ensures r.Success?
      ensures var points := MeadowPoints(Animals(meadow, cancelledAnimals));
        if points <= 0 || (!messageType.HuntingTrapMessage? && !meadow.IsOccupied()) then r.value == this
        else if messageType.HuntingTrapMessage? then AppendedTo(r.value, points, {messageType.placer}, meadow.TileIds())
        else AppendedTo(r.value, points, meadow.MajorityOccupants(), meadow.TileIds())
    {
      var animals := Animals(meadow, cancelledAnimals);
      var points := MeadowPoints(animals);
      if points <= 0 then Success(this)
      else
        var counts := AnimalCount(animals);
        var a :| a in animals && a.kind in {Mammoth, Aurochs, Deer};
        assert a.kind in counts && counts[a.kind] > 0;
        match messageType
        case MeadowMessage =>
          if !meadow.IsOccupied() then Success(this)
          else
            var scorers := meadow.MajorityOccupants();
            var text := textMaker.PlayersScoredMeadow(scorers, points, counts).value;
            WithNewMessage(text, points, scorers, meadow.TileIds())
        case HuntingTrapMessage(placer) =>
          var text := textMaker.PlayerScoredHuntingTrap(placer, points, counts).value;
          WithNewMessage(text, points, {placer}, meadow.TileIds())
        case PitTrapMessage =>
          if !meadow.IsOccupied() then Success(this)
          else
            var scorers := meadow.MajorityOccupants();
            var text := textMaker.PlayersScoredPitTrap(scorers, points, counts).value;
            WithNewMessage(text, points, scorers, meadow.TileIds())
    }

    /** withScoredForest: an unoccupied forest adds nothing; forClosedForest rejects a forest of one tile. */
    function WithScoredForest(forest: Area): (r: Result<MessageBoard, Thrown>)
      ensures r.Success? <==> !forest.IsOccupied() || |forest.TileIds()| > 1
      ensures r.Success? && !forest.IsOccupied() ==> r.value == this
      ensures r.Success? && forest.IsOccupied() ==>
        AppendedTo(r.value, ForClosedForest(|forest.TileIds()|, MushroomGroupCount(forest)).value,
          forest.MajorityOccupants(), forest.TileIds())
      ensures r.Failure? ==> r.error == IllegalArgument
    {
      if !forest.IsOccupied() then Success(this)
      else
        var tileCount := |forest.TileIds()|;
        var mushroomCount := MushroomGroupCount(forest);
        var points :- ForClosedForest(tileCount, mushroomCount);
        var scorers := forest.MajorityOccupants();
        var text := textMaker.PlayersScoredForest(scorers, points, mushroomCount, tileCount).value;
        WithNewMessage(text, points, scorers, forest.TileIds())
    }

    /** withClosedForestWithMenhir: a message worth nothing, with no scorer. */
    function WithClosedForestWithMenhir(player: PlayerColor, forest: Area): (r: Result<MessageBoard, Thrown>)
      ensures r.Success? && AppendedTo(r.value, 0, {}, forest.TileIds())
    {
      WithNewMessage(textMaker.PlayerClosedForestWithMenhir(player), 0, {}, forest.TileIds())
    }

    /** withScoredRiver: as the forest, with forClosedRiver on the tiles and the river's fish. */
    function WithScoredRiver(river: Area): (r: Result<MessageBoard, Thrown>)
      ensures r.Success? <==> !river.IsOccupied() || |river.TileIds()| > 1
      ensures r.Success? && !river.IsOccupied() ==> r.value == this
      ensures r.Success? && river.IsOccupied() ==>
        AppendedTo(r.value, ForClosedRiver(|river.TileIds()|, RiverFishCount(river)).value,
          river.MajorityOccupants(), river.TileIds())
      ensures r.Failure? ==> r.error == IllegalArgument
    {
      if !river.IsOccupied() then Success(this)
      else
        var tileCount := |river.TileIds()|;
        var fishCount := RiverFishCount(river);
        var points :- ForClosedRiver(tileCount, fishCount);
        var scorers := river.MajorityOccupants();
        var text := textMaker.PlayersScoredRiver(scorers, points, fishCount, tileCount).value;
        WithNewMessage(text, points, scorers, river.TileIds())
    }

    /** withScoredLogboat: two points per lake to the placer; forLogboat rejects a system with no lake. */
    function WithScoredLogboat(scorer: PlayerColor, riverSystem: Area): (r: Result<MessageBoard, Thrown>)
      ensures r.Success? <==> LakeCount(riverSystem) > 0
      ensures r.Success? ==> AppendedTo(r.value, 2 * LakeCount(riverSystem), {scorer}, riverSystem.TileIds())
      ensures r.Failure? ==> r.error == IllegalArgument
    {
      var lakeCount := LakeCount(riverSystem);
      var points :- ForLogboat(lakeCount);
      WithNewMessage(textMaker.PlayerScoredLogboat(scorer, points, lakeCount), points, {scorer}, riverSystem.TileIds())
    }

    /** withScoredHuntingTrap. */
    function WithScoredHuntingTrap(scorer: PlayerColor, adjacentMeadow: Area, cancelledAnimals: set<Animal>): (r: Result<MessageBoard, Thrown>)
      ensures r.Success?
      ensures var points := MeadowPoints(Animals(adjacentMeadow, cancelledAnimals));
        if points <= 0 then r.value == this else AppendedTo(r.value, points, {scorer}, adjacentMeadow.TileIds())
    {
      WithGenericScoredMeadow(HuntingTrapMessage(scorer), adjacentMeadow, cancelledAnimals)
    }

    /** withScoredMeadow. */
    function WithScoredMeadow(meadow: Area, cancelledAnimals: set<Animal>): (r: Result<MessageBoard, Thrown>)
      ensures r.Success?
      ensures var points := MeadowPoints(Animals(meadow, cancelledAnimals));
        if points <= 0 || !meadow.IsOccupied() then r.value == this
        else AppendedTo(r.value, points, meadow.MajorityOccupants(), meadow.TileIds())
    {
      WithGenericScoredMeadow(MeadowMessage, meadow, cancelledAnimals)
    }

    /** withScoredPitTrap. */
    function WithScoredPitTrap(adjacentMeadow: Area, cancelledAnimals: set<Animal>): (r: Result<MessageBoard, Thrown>)
      ensures r.Success?
      ensures var points := MeadowPoints(Animals(adjacentMeadow, cancelledAnimals));
        if points <= 0 || !adjacentMeadow.IsOccupied() then r.value == this
        else AppendedTo(r.value, points, adjacentMeadow.MajorityOccupants(), adjacentMeadow.TileIds())
    {
      WithGenericScoredMeadow(PitTrapMessage, adjacentMeadow, cancelledAnimals)
    }

    /** withScoredRiverSystem: skipped when unoccupied or worth nothing; one point per fish. */
    function WithScoredRiverSystem(riverSystem: Area): (r: Result<MessageBoard, Thrown>)
      ensures r.Success?
      ensures !riverSystem.IsOccupied() || RiverSystemFishCount(riverSystem) == 0 ==> r.value == this
      ensures riverSystem.IsOccupied() && RiverSystemFishCount(riverSystem) > 0 ==>
        AppendedTo(r.value, RiverSystemFishCount(riverSystem), riverSystem.MajorityOccupants(), riverSystem.TileIds())
    {
      if !riverSystem.IsOccupied() then Success(this)
      else
        var fishCount := RiverSystemFishCount(riverSystem);
        var points := ForRiverSystem(fishCount).value;
        if points <= 0 then Success(this)
        else
          var scorers := riverSystem.MajorityOccupants();
          var text := textMaker.PlayersScoredRiverSystem(scorers, points, fishCount).value;
          WithNewMessage(text, points, scorers, riverSystem.TileIds())
    }

    /** withScoredRaft: one point per lake to the majority occupants; forRaft rejects a system with no lake. */
    function WithScoredRaft(riverSystem: Area): (r: Result<MessageBoard, Thrown>)
      ensures r.Success? <==> !riverSystem.IsOccupied() || LakeCount(riverSystem) > 0
      ensures r.Success? && !riverSystem.IsOccupied() ==> r.value == this
      ensures r.Success? && riverSystem.IsOccupied() ==>
        AppendedTo(r.value, LakeCount(riverSystem), riverSystem.MajorityOccupants(), riverSystem.TileIds())
      ensures r.Failure? ==> r.error == IllegalArgument
    {
      if !riverSystem.IsOccupied() then Success(this)
      else
        var lakeCount := LakeCount(riverSystem);
        var points :- ForRaft(lakeCount);
        var scorers := riverSystem.MajorityOccupants();
        var text := textMaker.PlayersScoredRaft(scorers, points, lakeCount).value;
        WithNewMessage(text, points, scorers, riverSystem.TileIds())
    }

    /** withWinners: a message worth nothing, with no scorer and no tile; the text needs a winner. */
    function WithWinners(winners: set<PlayerColor>, points: int): (r: Result<MessageBoard, Thrown>)
      ensures r.Success? <==> winners != {}
      ensures r.Success? ==> AppendedTo(r.value, 0, {}, {})
      ensures r.Success? ==> r.value.messages[|messages|].text == textMaker.PlayersWon(winners, points).value
      ensures r.Failure? ==> r.error == IllegalArgument
    {
      var text :- textMaker.PlayersWon(winners, points);
      WithNewMessage(text, 0, {}, {})
    }
  }

  /** Appending a message adds its points to each of its scorers and leaves the others' totals alone. */
  lemma AppendAddsPoints(b: MessageBoard, after: MessageBoard, points: int, scorers: set<PlayerColor>, tileIds: set<int>, c: PlayerColor)
    requires b.AppendedTo(after, points, scorers, tileIds)
    ensures Total(after.messages, c) == Total(b.messages, c) + (if c in scorers then points else 0)
  {
    assert after.messages[..|after.messages| - 1] == b.messages;
  }

  /** Appending a message without scorers changes nobody's points, nor who has any. */
  lemma AppendNoScorerKeepsPoints(b: MessageBoard, after: MessageBoard, tileIds: set<int>)
    requires b.AppendedTo(after, 0, {}, tileIds)
    ensures after.Points() == b.Points()
  {
    forall c
      ensures c in after.Points() <==> c in b.Points()
    {
      if c in after.Points() {
        var i :| 0 <= i < |after.messages| && c in after.messages[i].scorers;
        assert i < |b.messages| && b.messages[i] == after.messages[i];
      }
      if c in b.Points() {
        var i :| 0 <= i < |b.messages| && c in b.messages[i].scorers;
        assert after.messages[i] == b.messages[i];
      }
    }
    forall c | c in after.Points()
      ensures after.Points()[c] == b.Points()[c]
    {
      AppendAddsPoints(b, after, 0, {}, tileIds, c);
    }
  }
}
