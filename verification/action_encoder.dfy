/**
 * The wire form of the players' actions. A tile placement is two Base32 symbols: the index of
 * its position among the insertion positions sorted by x and then y, shifted left by two
 * bits, with the rotation's ordinal in the two low bits. An occupant placement is one symbol:
 * the kind's ordinal shifted left by four bits, with the zone's local identifier in the four
 * low bits. A pawn removal is one symbol: the index of the occupant among the board's
 * occupants sorted by zone identifier. The value 31 means "no occupant" in both one-symbol
 * forms.
 *
 * A rejected action (the Java IllegalActionException, which decodeAndApply turns into null) is
 * None. The unchecked exceptions that the engine or a list access throws escape decodeAndApply,
 * and are a Failure.
 */
module ActionCodec {
  import opened Wrappers
  import opened Collections
  import opened Sorting
  import opened Geometry
  import opened Zones
  import opened Tiles
  import opened Base32
  import Board
  import opened Game

  /** WITH_NO_OCCUPANT: the one-symbol value that stands for no occupant. */
  const NoOccupant: int := 31

  /**
   * The order in which a hash set of occupants is streamed. Java takes it from the hash codes;
   * the model takes it from the caller.
   */
  type OccupantListing = set<Occupant> -> seq<Occupant>

  /** The listing gives each set with every one of its elements exactly once. */
  ghost predicate Lists(listing: OccupantListing) {
    forall s :: Elements(listing(s)) == s && NoDuplicates(listing(s))
  }

  /** StateAction: a game state with the Base32 action that led to it. */
  datatype StateAction = StateAction(gameState: GameState, action: string)

  /** List.indexOf: the index of the first occurrence, or -1. */
  function IndexIn<T(==)>(s: seq<T>, x: T): (r: int)
    ensures -1 <= r < |s|
    ensures r == -1 <==> x !in s
    ensures r >= 0 ==> s[r] == x && x !in s[..r]
  {
    if s == [] then -1
    else if s[0] == x then 0
    else
      var i := IndexIn(s[1..], x);
      assert i >= 0 ==> s[..i + 1] == [s[0]] + s[1..][..i];
      if i == -1 then -1 else i + 1
  }

  /** In a list without duplicates, indexOf of the element at index i is i. */
  lemma IndexInOfDistinct<T>(s: seq<T>, i: int)
    requires NoDuplicates(s) && 0 <= i < |s|
    ensures IndexIn(s, s[i]) == i
  {
    var j := IndexIn(s, s[i]);
    assert s[j] == s[i];
  }

  /**
   * getIndexOrThrows: an index above the size is rejected, an index equal to the size reaches
   * List.get and throws an IndexOutOfBoundsException, any other index gives the element.
   */
  function IndexOrThrows<T>(list: seq<T>, index: int): (r: Result<Option<T>, Thrown>)
    ensures index > |list| ==> r == Success(None)
    ensures index == |list| ==> r == Failure(IndexOutOfBounds)
    ensures 0 <= index < |list| ==> r == Success(Some(list[index]))
    ensures index < 0 ==> r == Failure(IndexOutOfBounds)
  {
    if |list| < index then Success(None)
    else if index < 0 || index >= |list| then Failure(IndexOutOfBounds)
    else Success(Some(list[index]))
  }

  // ---------------------------------------------------------------------------------------
  // Sorted lists

  /** The key the fringe is sorted by: x first, then y, which ranges over 25 values on the board. */
  function FringeKey(p: Pos): int {
    p.x * Board.Width + p.y
  }

  /** On the board, FringeKey orders positions by x and then by y. */
  lemma FringeKeyOrder(p: Pos, q: Pos)
    requires Board.IsPosInBoard(p) && Board.IsPosInBoard(q)
    ensures FringeKey(p) < FringeKey(q) <==> p.x < q.x || (p.x == q.x && p.y < q.y)
    ensures FringeKey(p) == FringeKey(q) <==> p == q
  {
  }

  /** fringeIndexes: the board's insertion positions, sorted by x and then by y. */
  function Fringe(g: GameState): (r: seq<Pos>)
    requires g.board.Valid()
    ensures forall p :: p in r <==> p in g.board.InsertionPositions()
    ensures NoDuplicates(r)
    ensures forall i, j :: 0 <= i < j < |r| ==> r[i].x < r[j].x || (r[i].x == r[j].x && r[i].y < r[j].y)
  {
    var positions := g.board.InsertionPositions();
    forall p, q | p in positions && q in positions
      ensures FringeKey(p) == FringeKey(q) ==> p == q
    {
      FringeKeyOrder(p, q);
    }
    var r := SortedByKey(positions, FringeKey);
    SortedByKeyIsSorted(positions, FringeKey);
    forall i, j | 0 <= i < j < |r|
      ensures r[i].x < r[j].x || (r[i].x == r[j].x && r[i].y < r[j].y)
    {
      assert r[i] in positions && r[j] in positions;
      FringeKeyOrder(r[i], r[j]);
    }
    StrictlySortedIsDistinct(r, FringeKey);
    r
  }

  /** The key the occupants are sorted by. */
  function ZoneKey(o: Occupant): int {
    o.zoneId
  }

  /** The board's occupants, sorted by zone identifier. */
  function SortedOccupants(g: GameState, listing: OccupantListing): (r: seq<Occupant>)
    requires g.board.Valid()
    ensures Lists(listing) ==> Elements(r) == g.board.Occupants() && NoDuplicates(r)
    ensures Sorted(r, ZoneKey)
  {
    var listed := listing(g.board.Occupants());
    var r := SortedBy(listed, ZoneKey);
    assert forall o :: o in r <==> o in listed by {
      forall o ensures o in r <==> o in listed {
        assert o in r <==> o in multiset(r);
      }
    }
    DistinctMultiset(listed, r);
    r
  }

  // ---------------------------------------------------------------------------------------
  // Encoding

  /** The result of a transition, paired with the action that led to it. */
  function Paired(next: Result<GameState, Thrown>, action: string): (r: Result<StateAction, Thrown>)
    ensures r.Success? <==> next.Success?
    ensures r.Success? ==> r.value == StateAction(next.value, action)
    ensures r.Failure? ==> r.error == next.error
  {
    var state :- next;
    Success(StateAction(state, action))
  }

  /** The number a placement encodes: the fringe index shifted left by two bits, or the rotation. */
  function PlacementCode(index: int, rotation: Rotation): Int32 {
    Wrap(index * 4 + rotation.Ordinal())
  }

  /** An index of eight bits and the rotation come back out of the two symbols of their code. */
  lemma PlacementCodeDecodes(index: int, rotation: Rotation)
    requires 0 <= index < 256
    ensures var decoded := DecodedValue(EncodeBits10(PlacementCode(index, rotation)));
      decoded / 4 == index && RotationAt(decoded % 4) == rotation
  {
    var x := index * 4 + rotation.Ordinal();
    DecodeEncodeSmall10(x);
    assert x / 4 == index && x % 4 == rotation.Ordinal();
  }

  /** The action of a placement: the code of its fringe index and its rotation, in two symbols. */
  function PlacementAction(g: GameState, tile: PlacedTile): (a: string)
    requires g.board.Valid()
    ensures |a| == 2 && IsValid(a)
  {
    EncodeBits10(PlacementCode(IndexIn(Fringe(g), tile.pos), tile.rotation))
  }

  /** withPlacedTile: the tile is placed, and the action says where and how it is turned. */
  function EncodePlacement(g: GameState, tile: PlacedTile, order: IterationOrder): (r: Result<StateAction, Thrown>)
    requires g.Valid()
    ensures r.Success? <==> g.WithPlacedTile(tile, order).Success?
    ensures r.Success? ==> r.value == StateAction(g.WithPlacedTile(tile, order).value, PlacementAction(g, tile))
    ensures r.Failure? ==> r.error == g.WithPlacedTile(tile, order).error
  {
    ApplyMove(g, Place(tile), PlacementAction(g, tile), order)
  }

  /** The action of an occupant placement: the kind shifted left by four bits, or the local zone. */
  function NewOccupantAction(occupant: Option<Occupant>): (a: string)
    ensures |a| == 1 && IsValid(a)
  {
    match occupant
    case None => EncodeBits5(NoOccupant)
    case Some(o) =>
      ZoneIdSplits(o.zoneId);
      EncodeBits5(o.kind.Ordinal() * 16 + LocalIdOf(o.zoneId))
  }

  /** withNewOccupant: the occupant, or none, goes on the last tile, and the action names it. */
  function EncodeNewOccupant(g: GameState, occupant: Option<Occupant>, order: IterationOrder): (r: Result<StateAction, Thrown>)
    requires g.Valid()
    ensures r.Success? <==> g.WithNewOccupant(occupant, order).Success?
    ensures r.Success? ==> r.value == StateAction(g.WithNewOccupant(occupant, order).value, NewOccupantAction(occupant))
    ensures r.Failure? ==> r.error == g.WithNewOccupant(occupant, order).error
  {
    ApplyMove(g, Occupy(occupant), NewOccupantAction(occupant), order)
  }

  /**
   * The action of a pawn removal: the occupant's index among the sorted occupants, cut down to
   * the five bits the symbol holds; 31 when there is no occupant.
   */
  function RemovalAction(sorted: seq<Occupant>, occupant: Option<Occupant>): (a: string)
    ensures |a| == 1 && IsValid(a)
  {
    match occupant
    case None => EncodeBits5(NoOccupant)
    case Some(o) => EncodeBits5(Wrap(IndexIn(sorted, o)))
  }

  /** The action of a pawn removal on a game state. */
  function OccupantRemovedAction(g: GameState, occupant: Option<Occupant>, listing: OccupantListing): (a: string)
    requires g.board.Valid()
    ensures |a| == 1 && IsValid(a)
  {
    RemovalAction(SortedOccupants(g, listing), occupant)
  }

  /** withOccupantRemoved: the pawn, or none, goes back, and the action names it. */
  function EncodeOccupantRemoved(g: GameState, occupant: Option<Occupant>, order: IterationOrder, listing: OccupantListing): (r: Result<StateAction, Thrown>)
    requires g.Valid()
    ensures r.Success? <==> g.WithOccupantRemoved(occupant, order).Success?
    ensures r.Success? ==> r.value == StateAction(g.WithOccupantRemoved(occupant, order).value, OccupantRemovedAction(g, occupant, listing))
    ensures r.Failure? ==> r.error == g.WithOccupantRemoved(occupant, order).error
  {
    ApplyMove(g, Retake(occupant), OccupantRemovedAction(g, occupant, listing), order)
  }

  // ---------------------------------------------------------------------------------------
  // Decoding

  /** The occupant filter of the decoder: that kind, on the zone with that local identifier. */
  predicate Designates(o: Occupant, kind: OccupantKind, localId: int) {
    o.kind == kind && LocalIdOf(o.zoneId) == localId
  }

  /** findFirst after the filter: the first listed occupant the filter keeps. */
  function FirstDesignated(s: seq<Occupant>, kind: OccupantKind, localId: int): (r: Option<Occupant>)
    ensures r.None? <==> forall o :: o in s ==> !Designates(o, kind, localId)
    ensures r.Some? ==> exists i ::
      (0 <= i < |s| && s[i] == r.value && Designates(s[i], kind, localId) && forall j :: 0 <= j < i ==> !Designates(s[j], kind, localId))
  {
    if s == [] then None
    else if Designates(s[0], kind, localId) then Some(s[0])
    else
      var r := FirstDesignated(s[1..], kind, localId);
      assert forall o :: o in s ==> o == s[0] || o in s[1..];
      if r.Some? then
        var i :| 0 <= i < |s[1..]| && s[1..][i] == r.value && Designates(s[1..][i], kind, localId) &&
          (forall j :: 0 <= j < i ==> !Designates(s[1..][j], kind, localId));
        assert s[i + 1] == r.value && forall j :: 0 <= j < i + 1 ==> !Designates(s[j], kind, localId) by {
          forall j | 0 <= j < i + 1
            ensures !Designates(s[j], kind, localId)
          {
            if j > 0 {
              assert s[j] == s[1..][j - 1];
            }
          }
        }
        r
      else r
  }

  /** What a decoded action asks the game state to do. */
  datatype Move = Place(tile: PlacedTile) | Occupy(occupant: Option<Occupant>) | Retake(occupant: Option<Occupant>)

  /** The board's canAddTile, as a test. */
  function CanAdd(board: Board.Board): (test: PlacedTile -> bool)
    requires board.Valid()
    ensures forall t :: test(t) == board.CanAddTile(t)
  {
    t => board.CanAddTile(t)
  }

  /** The board's tileWithId, as a lookup. */
  function TileLookup(board: Board.Board): (lookup: int -> Result<PlacedTile, Thrown>)
    requires board.Valid()
    ensures forall id :: lookup(id) == board.TileWithId(id)
  {
    id => board.TileWithId(id)
  }

  /**
   * decodeAndApply for PLACE_TILE, on what it reads of the game state: two symbols, the
   * index in the fringe and the rotation. The tile to place goes there, turned so, for the
   * current player, when the board accepts it.
   */
  function DecodePlacement(fringe: seq<Pos>, tile: Tile, player: Option<PlayerColor>, canAdd: PlacedTile -> bool, action: string): (r: Result<Option<Move>, Thrown>)
    requires IsValid(action)
    ensures |action| != 2 ==> r == Success(None)
    ensures r.Success? && r.value.Some? ==>
      r.value.value.Place? && canAdd(r.value.value.tile) && r.value.value.tile.pos in fringe &&
      r.value.value.tile == PlacedTile(tile, player, r.value.value.tile.rotation, r.value.value.tile.pos, None)
    ensures r.Failure? ==> r.error == IndexOutOfBounds
  {
    if |action| != 2 then Success(None)
    else
      var decoded := DecodedValue(action);
      var pos :- IndexOrThrows(fringe, decoded / 4);
      if pos.None? then Success(None)
      else
        var placed := PlacedTile(tile, player, RotationAt(decoded % 4), pos.value, None);
        if !canAdd(placed) then Success(None)
        else Success(Some(Place(placed)))
  }

  /**
   * decodeAndApply for OCCUPY_TILE, on the last tile's potential occupants: one symbol, 31 for
   * no occupant, or the kind and the local zone identifier of a potential occupant. The
   * potential occupants are only looked at when an occupant is named.
   */
  function DecodeNewOccupant(potential: Result<set<Occupant>, Thrown>, listing: OccupantListing, action: string): (r: Result<Option<Move>, Thrown>)
    requires IsValid(action)
    ensures |action| != 1 ==> r == Success(None)
    ensures r.Success? && r.value.Some? ==> r.value.value.Occupy?
    ensures Lists(listing) && r.Success? && r.value.Some? && r.value.value.occupant.Some? ==>
      potential.Success? && r.value.value.occupant.value in potential.value
    ensures r.Failure? ==> potential.Failure? && r.error == potential.error
  {
    if |action| != 1 then Success(None)
    else
      var decoded := DecodedValue(action);
      if decoded == NoOccupant then Success(Some(Occupy(None)))
      else
        DecodeOne(action);
        var kind := AllOccupantKinds[decoded / 16];
        var candidates :- potential;
        var occupant := FirstDesignated(listing(candidates), kind, decoded % 16);
        if occupant.None? then Success(None)
        else Success(Some(Occupy(occupant)))
  }

  /**
   * decodeAndApply for RETAKE_PAWN, on the sorted occupants: one symbol, 31 for no occupant,
   * or the index of a pawn on a tile the current player placed.
   */
  function DecodeOccupantRemoved(sorted: seq<Occupant>, lookup: int -> Result<PlacedTile, Thrown>, player: Option<PlayerColor>, action: string): (r: Result<Option<Move>, Thrown>)
    requires IsValid(action)
    ensures |action| != 1 ==> r == Success(None)
    ensures r.Success? && r.value.Some? ==> r.value.value.Retake?
    ensures r.Success? && r.value.Some? && r.value.value.occupant.Some? ==>
      var o := r.value.value.occupant.value;
      o in sorted && o.kind == Pawn && lookup(TileIdOf(o.zoneId)).Success? && lookup(TileIdOf(o.zoneId)).value.placer == player
  {
    if |action| != 1 then Success(None)
    else
      var decoded := DecodedValue(action);
      if decoded == NoOccupant then Success(Some(Retake(None)))
      else
        var chosen :- IndexOrThrows(sorted, decoded);
        if chosen.None? || chosen.value.kind != Pawn then Success(None)
        else
          var tile :- lookup(TileIdOf(chosen.value.zoneId));
          if player != tile.placer then Success(None)
          else Success(Some(Retake(chosen)))
  }

  /**
   * The decoding half of decodeAndApply: the move the action asks for, None for an action
   * that is not valid Base32, has the wrong length for the next action, designates nothing,
   * or comes when no player is to act.
   */
  function DecodeMove(g: GameState, action: string, listing: OccupantListing): (r: Result<Option<Move>, Thrown>)
    requires g.Valid()
    ensures !IsValid(action) ==> r == Success(None)
    ensures g.nextAction == StartGame || g.nextAction == EndGame ==> r == Success(None)
    ensures r.Success? && r.value.Some? ==>
      match r.value.value
      case Place(_) => g.nextAction == PlaceTile
      case Occupy(_) => g.nextAction == OccupyTile
      case Retake(_) => g.nextAction == RetakePawn
  {
    if !IsValid(action) then Success(None)
    else
      match g.nextAction
      case PlaceTile => DecodePlacement(Fringe(g), g.tileToPlace.value, g.CurrentPlayer(), CanAdd(g.board), action)
      case OccupyTile => DecodeNewOccupant(g.LastTilePotentialOccupants(), listing, action)
      case RetakePawn => DecodeOccupantRemoved(SortedOccupants(g, listing), TileLookup(g.board), g.CurrentPlayer(), action)
      case _ => Success(None)
  }

  /** The applying half of decodeAndApply: the transition the move names, with the action. */
  function ApplyMove(g: GameState, move: Move, action: string, order: IterationOrder): (r: Result<StateAction, Thrown>)
    requires g.Valid()
    ensures r.Success? ==> r.value.action == action && r.value.gameState.Follows(g)
  {
    match move
    case Place(tile) => Paired(g.WithPlacedTile(tile, order), action)
    case Occupy(occupant) => Paired(g.WithNewOccupant(occupant, order), action)
    case Retake(occupant) => Paired(g.WithOccupantRemoved(occupant, order), action)
  }

  /** A state and its action, as the optional result of decodeAndApply. */
  function Lifted(r: Result<StateAction, Thrown>): (l: Result<Option<StateAction>, Thrown>)
    ensures l.Success? <==> r.Success?
    ensures l.Success? ==> l.value == Some(r.value)
    ensures l.Failure? ==> l.error == r.error
  {
    var sa :- r;
    Success(Some(sa))
  }

  /**
   * decodeAndApply: the move the action asks for, applied; None when the action is rejected.
   * What the decoding or the engine throws escapes.
   */
  function DecodeAndApply(g: GameState, action: string, order: IterationOrder, listing: OccupantListing): (r: Result<Option<StateAction>, Thrown>)
    requires g.Valid()
    ensures !IsValid(action) ==> r == Success(None)
    ensures g.nextAction == StartGame || g.nextAction == EndGame ==> r == Success(None)
    ensures r.Success? && r.value.Some? ==> r.value.value.action == action && r.value.value.gameState.Follows(g)
  {
    var move :- DecodeMove(g, action, listing);
    if move.None? then Success(None)
    else Lifted(ApplyMove(g, move.value, action, order))
  }

  // ---------------------------------------------------------------------------------------
  // Round trips

  /**
   * A placement the board accepts, of the tile to place by the current player, whose fringe
   * index fits the eight bits the action keeps for it, decodes to itself.
   */
  lemma PlacementDecodes(fringe: seq<Pos>, tile: PlacedTile, canAdd: PlacedTile -> bool)
    requires tile.pos in fringe && IndexIn(fringe, tile.pos) < 256
    requires tile.occupant.None? && canAdd(tile)
    ensures DecodePlacement(fringe, tile.tile, tile.placer, canAdd, EncodeBits10(PlacementCode(IndexIn(fringe, tile.pos), tile.rotation)))
      == Success(Some(Place(tile)))
  {
    var i := IndexIn(fringe, tile.pos);
    PlacementCodeDecodes(i, tile.rotation);
  }

  /** The placement round trip on a game state. */
  lemma PlacementRoundTrip(g: GameState, tile: PlacedTile, listing: OccupantListing)
    requires g.Valid() && g.nextAction == PlaceTile
    requires tile.tile == g.tileToPlace.value && tile.placer == g.CurrentPlayer() && tile.occupant.None?
    requires g.board.CanAddTile(tile)
    requires IndexIn(Fringe(g), tile.pos) < 256
    ensures DecodeMove(g, PlacementAction(g, tile), listing) == Success(Some(Place(tile)))
  {
    PlacementDecodes(Fringe(g), tile, CanAdd(g.board));
  }

  /**
   * No occupant, or a potential occupant that no other potential occupant shares its kind
   * and local zone identifier with, decodes to itself.
   */
  lemma NewOccupantDecodes(potential: Result<set<Occupant>, Thrown>, listing: OccupantListing, occupant: Option<Occupant>)
    requires Lists(listing)
    requires occupant.Some? ==>
      && potential.Success? && occupant.value in potential.value
      && forall o :: o in potential.value && Designates(o, occupant.value.kind, LocalIdOf(occupant.value.zoneId)) ==> o == occupant.value
    ensures DecodeNewOccupant(potential, listing, NewOccupantAction(occupant)) == Success(Some(Occupy(occupant)))
  {
    match occupant
    case None =>
      DecodeEncodeSmall5(NoOccupant);
    case Some(o) =>
      ZoneIdSplits(o.zoneId);
      var x := o.kind.Ordinal() * 16 + LocalIdOf(o.zoneId);
      DecodeEncodeSmall5(x);
      assert x / 16 == o.kind.Ordinal() && x % 16 == LocalIdOf(o.zoneId);
      assert AllOccupantKinds[x / 16] == o.kind;
      var listed := listing(potential.value);
      assert o in Elements(listed);
      var found := FirstDesignated(listed, o.kind, x % 16);
      assert found.value in Elements(listed);
  }

  /** The occupant placement round trip on a game state. */
  lemma NewOccupantRoundTrip(g: GameState, occupant: Option<Occupant>, listing: OccupantListing)
    requires g.Valid() && g.nextAction == OccupyTile && Lists(listing)
    requires occupant.Some? ==>
      && g.LastTilePotentialOccupants().Success?
      && occupant.value in g.LastTilePotentialOccupants().value
      && forall o :: o in g.LastTilePotentialOccupants().value && Designates(o, occupant.value.kind, LocalIdOf(occupant.value.zoneId)) ==> o == occupant.value
    ensures DecodeMove(g, NewOccupantAction(occupant), listing) == Success(Some(Occupy(occupant)))
  {
    NewOccupantDecodes(g.LastTilePotentialOccupants(), listing, occupant);
  }

  /**
   * No occupant, or a pawn of the sorted occupants at an index below 31, on a tile the
   * player placed, decodes to itself.
   */
  lemma OccupantRemovedDecodes(sorted: seq<Occupant>, lookup: int -> Result<PlacedTile, Thrown>, player: Option<PlayerColor>, occupant: Option<Occupant>)
    requires occupant.Some? ==>
      && occupant.value in sorted && occupant.value.kind == Pawn
      && IndexIn(sorted, occupant.value) < NoOccupant
      && lookup(TileIdOf(occupant.value.zoneId)).Success?
      && lookup(TileIdOf(occupant.value.zoneId)).value.placer == player
    ensures DecodeOccupantRemoved(sorted, lookup, player, RemovalAction(sorted, occupant)) == Success(Some(Retake(occupant)))
  {
    match occupant
    case None =>
      DecodeEncodeSmall5(NoOccupant);
    case Some(o) =>
      DecodeEncodeSmall5(IndexIn(sorted, o));
  }

  /** The pawn removal round trip on a game state. */
  lemma OccupantRemovedRoundTrip(g: GameState, occupant: Option<Occupant>, listing: OccupantListing)
    requires g.Valid() && g.nextAction == RetakePawn && Lists(listing)
    requires occupant.Some? ==>
      && occupant.value in g.board.Occupants() && occupant.value.kind == Pawn
      && IndexIn(SortedOccupants(g, listing), occupant.value) < NoOccupant
      && g.board.TileWithId(TileIdOf(occupant.value.zoneId)).Success?
      && g.board.TileWithId(TileIdOf(occupant.value.zoneId)).value.placer == g.CurrentPlayer()
    ensures DecodeMove(g, OccupantRemovedAction(g, occupant, listing), listing) == Success(Some(Retake(occupant)))
  {
    OccupantRemovedDecodes(SortedOccupants(g, listing), TileLookup(g.board), g.CurrentPlayer(), occupant);
  }

  /**
   * Once decoded, an action leads where its encoder does: the state and action the encoder
   * gives for the move, or what the engine throws.
   */
  lemma DecodedMoveApplies(g: GameState, action: string, move: Move, order: IterationOrder, listing: OccupantListing)
    requires g.Valid() && DecodeMove(g, action, listing) == Success(Some(move))
    ensures DecodeAndApply(g, action, order, listing) == Lifted(ApplyMove(g, move, action, order))
  {
  }

  /** decodeAndApply undoes withPlacedTile of the encoder: same state, same action. */
  lemma EncodedPlacementApplies(g: GameState, tile: PlacedTile, order: IterationOrder, listing: OccupantListing)
    requires g.Valid() && g.nextAction == PlaceTile
    requires tile.tile == g.tileToPlace.value && tile.placer == g.CurrentPlayer() && tile.occupant.None?
    requires g.board.CanAddTile(tile)
    requires IndexIn(Fringe(g), tile.pos) < 256
    ensures DecodeAndApply(g, PlacementAction(g, tile), order, listing) == Lifted(EncodePlacement(g, tile, order))
  {
    PlacementRoundTrip(g, tile, listing);
    DecodedMoveApplies(g, PlacementAction(g, tile), Place(tile), order, listing);
  }

  /** decodeAndApply undoes withNewOccupant of the encoder: same state, same action. */
  lemma EncodedNewOccupantApplies(g: GameState, occupant: Option<Occupant>, order: IterationOrder, listing: OccupantListing)
    requires g.Valid() && g.nextAction == OccupyTile && Lists(listing)
    requires occupant.Some? ==>
      && g.LastTilePotentialOccupants().Success?
      && occupant.value in g.LastTilePotentialOccupants().value
      && forall o :: o in g.LastTilePotentialOccupants().value && Designates(o, occupant.value.kind, LocalIdOf(occupant.value.zoneId)) ==> o == occupant.value
    ensures DecodeAndApply(g, NewOccupantAction(occupant), order, listing) == Lifted(EncodeNewOccupant(g, occupant, order))
  {
    NewOccupantRoundTrip(g, occupant, listing);
    DecodedMoveApplies(g, NewOccupantAction(occupant), Occupy(occupant), order, listing);
  }

  /** decodeAndApply undoes withOccupantRemoved of the encoder: same state, same action. */
  lemma EncodedOccupantRemovedApplies(g: GameState, occupant: Option<Occupant>, order: IterationOrder, listing: OccupantListing)
    requires g.Valid() && g.nextAction == RetakePawn && Lists(listing)
    requires occupant.Some? ==>
      && occupant.value in g.board.Occupants() && occupant.value.kind == Pawn
      && IndexIn(SortedOccupants(g, listing), occupant.value) < NoOccupant
      && g.board.TileWithId(TileIdOf(occupant.value.zoneId)).Success?
      && g.board.TileWithId(TileIdOf(occupant.value.zoneId)).value.placer == g.CurrentPlayer()
    ensures DecodeAndApply(g, OccupantRemovedAction(g, occupant, listing), order, listing) == Lifted(EncodeOccupantRemoved(g, occupant, order, listing))
  {
    OccupantRemovedRoundTrip(g, occupant, listing);
    DecodedMoveApplies(g, OccupantRemovedAction(g, occupant, listing), Retake(occupant), order, listing);
  }

  /**
   * The five bits of a pawn removal cannot tell the occupant at sorted index 31 from no
   * occupant at all.
   */
  lemma RemovalActionCollides(sorted: seq<Occupant>, o: Occupant)
    requires IndexIn(sorted, o) == NoOccupant
    ensures RemovalAction(sorted, Some(o)) == RemovalAction(sorted, None)
  {
  }
}
