/**
 * The three decks of tiles (start, normal, menhir). Each operation picks a deck by the kind of
 * tile; the other two decks are left as they are.
 */
module Decks {
  import opened Wrappers
  import opened Tiles

  datatype TileDecks = TileDecks(startTiles: seq<Tile>, normalTiles: seq<Tile>, menhirTiles: seq<Tile>) {

    /** The deck of the given kind. */
    function Deck(kind: TileKind): seq<Tile> {
      match kind
      case Start => startTiles
      case Normal => normalTiles
      case Menhir => menhirTiles
    }

    /** This value with the deck of the given kind replaced. */
    function WithDeck(kind: TileKind, deck: seq<Tile>): (r: TileDecks)
      ensures r.Deck(kind) == deck
      ensures forall other :: other != kind ==> r.Deck(other) == Deck(other)
    {
      match kind
      case Start => this.(startTiles := deck)
      case Normal => this.(normalTiles := deck)
      case Menhir => this.(menhirTiles := deck)
    }

    /** deckSize: the number of tiles in the deck of that kind. */
    function DeckSize(kind: TileKind): (n: nat)
      ensures n == |Deck(kind)|
      ensures n == 0 <==> TopTile(kind) == None
    {
      match kind
      case Start => |startTiles|
      case Normal => |normalTiles|
      case Menhir => |menhirTiles|
    }

    /** topTile: the first tile of the deck, or nothing (null) when it is empty. */
    function TopTile(kind: TileKind): (r: Option<Tile>)
      ensures r.Some? <==> |Deck(kind)| > 0
      ensures r.Some? ==> r.value == Deck(kind)[0]
    {
      FirstCard(Deck(kind))
    }

    /** withTopTileDrawn: the deck without its first tile; an empty deck is rejected. */
    function WithTopTileDrawn(kind: TileKind): (r: Result<TileDecks, Thrown>)
      ensures r.Success? <==> |Deck(kind)| > 0
      ensures r.Success? ==> [Deck(kind)[0]] + r.value.Deck(kind) == Deck(kind)
      ensures r.Success? ==> forall other :: other != kind ==> r.value.Deck(other) == Deck(other)
      ensures r.Failure? ==> r.error == IllegalArgument
    {
      var rest :- DrawCardFromDeck(Deck(kind));
      Success(WithDeck(kind, rest))
    }

    /**
     * withTopTileDrawnUntil: tiles are drawn from the deck of that kind until it is empty or
     * its top tile satisfies the predicate.
     */
    function WithTopTileDrawnUntil(kind: TileKind, test: Tile -> bool): (r: TileDecks)
      ensures forall other :: other != kind ==> r.Deck(other) == Deck(other)
      decreases |Deck(kind)|
    {
      if DeckSize(kind) == 0 then this
      else if test(TopTile(kind).value) then this
      else WithTopTileDrawn(kind).value.WithTopTileDrawnUntil(kind, test)
    }
  }

  /** getFirstCard. */
  function FirstCard(deck: seq<Tile>): (r: Option<Tile>)
    ensures r == None <==> deck == []
    ensures r.Some? ==> r.value == deck[0]
  {
    if |deck| == 0 then None else Some(deck[0])
  }

  /** drawCardFromDeck: the deck without its first tile, rejected when the deck is empty. */
  function DrawCardFromDeck(deck: seq<Tile>): (r: Result<seq<Tile>, Thrown>)
    ensures r.Success? <==> deck != []
    ensures r.Success? ==> |r.value| == |deck| - 1 && [deck[0]] + r.value == deck
    ensures r.Failure? ==> r.error == IllegalArgument
  {
    var _ :- CheckArgument(|deck| != 0);
    Success(deck[1..])
  }

  /** The tiles withTopTileDrawnUntil leaves in a deck: those from the first that passes the test on. */
  function DropUntil(deck: seq<Tile>, test: Tile -> bool): seq<Tile>
    decreases |deck|
  {
    if deck == [] || test(deck[0]) then deck else DropUntil(deck[1..], test)
  }

  /** Replacing a deck of a value whose deck was already replaced is the same as replacing it once. */
  lemma WithDeckTwice(decks: TileDecks, kind: TileKind, first: seq<Tile>, second: seq<Tile>)
    ensures decks.WithDeck(kind, first).WithDeck(kind, second) == decks.WithDeck(kind, second)
  {
  }

  /** withTopTileDrawnUntil replaces the deck of that kind by what DropUntil leaves of it. */
  lemma {:induction false} DrawnUntilIsDropUntil(decks: TileDecks, kind: TileKind, test: Tile -> bool)
    ensures decks.WithTopTileDrawnUntil(kind, test) == decks.WithDeck(kind, DropUntil(decks.Deck(kind), test))
    decreases |decks.Deck(kind)|
  {
    var deck := decks.Deck(kind);
    if deck != [] && !test(deck[0]) {
      var next := decks.WithTopTileDrawn(kind).value;
      assert next == decks.WithDeck(kind, deck[1..]);
      DrawnUntilIsDropUntil(next, kind, test);
      WithDeckTwice(decks, kind, deck[1..], DropUntil(deck[1..], test));
    } else {
      assert decks.WithDeck(kind, deck) == decks;
    }
  }

  /** DropUntil leaves a suffix of the deck. */
  lemma {:induction false} DropUntilIsSuffix(deck: seq<Tile>, test: Tile -> bool)
    ensures |DropUntil(deck, test)| <= |deck|
    ensures DropUntil(deck, test) == deck[|deck| - |DropUntil(deck, test)|..]
    decreases |deck|
  {
    if deck != [] && !test(deck[0]) {
      var rest := DropUntil(deck[1..], test);
      DropUntilIsSuffix(deck[1..], test);
      var i := |deck| - |rest|;
      assert rest == deck[1..][i - 1..];
      assert deck[1..][i - 1..] == deck[i..];
    } else {
      assert deck[0..] == deck;
    }
  }

  /**
   * DropUntil leaves the suffix that starts at the first tile passing the test, after
   * dropping only tiles that fail it; it leaves nothing exactly when no tile passes.
   */
  lemma {:induction false} DropUntilFindsFirstMatch(deck: seq<Tile>, test: Tile -> bool)
    ensures var i := |deck| - |DropUntil(deck, test)|;
      && 0 <= i <= |deck|
      && DropUntil(deck, test) == deck[i..]
      && (forall j :: 0 <= j < i ==> !test(deck[j]))
      && (i < |deck| ==> test(deck[i]))
      && (i < |deck| <==> exists j :: 0 <= j < |deck| && test(deck[j]))
    decreases |deck|
  {
    DropUntilIsSuffix(deck, test);
    if deck != [] && !test(deck[0]) {
      var tail := deck[1..];
      DropUntilFindsFirstMatch(tail, test);
      var i := |deck| - |DropUntil(tail, test)|;
      assert forall j :: 0 < j < |deck| ==> deck[j] == tail[j - 1];
      assert forall j :: 0 <= j < i - 1 ==> !test(tail[j]);
    }
  }

  /** The first tile of the deck that passes the test is the one at index i. */
  predicate FirstMatch(deck: seq<Tile>, test: Tile -> bool, i: int) {
    0 <= i < |deck| && test(deck[i]) && forall j :: 0 <= j < i ==> !test(deck[j])
  }

  /** There is only one first tile that passes the test. */
  lemma FirstMatchIsUnique(deck: seq<Tile>, test: Tile -> bool, i: int, j: int)
    requires FirstMatch(deck, test, i) && FirstMatch(deck, test, j)
    ensures i == j
  {
  }

  /** Some tile of the deck passes the test. */
  predicate SomeMatch(deck: seq<Tile>, test: Tile -> bool) {
    exists i :: 0 <= i < |deck| && test(deck[i])
  }

  /**
   * withTopTileDrawnUntil leaves a tile exactly when some tile of the deck satisfies the
   * predicate, and then its top is the first such tile and the deck goes on from there.
   */
  lemma DrawnUntilFindsFirstMatch(decks: TileDecks, kind: TileKind, test: Tile -> bool)
    ensures var deck := decks.Deck(kind);
      var after := decks.WithTopTileDrawnUntil(kind, test).Deck(kind);
      && (after != [] <==> SomeMatch(deck, test))
      && (after != [] ==> FirstMatch(deck, test, |deck| - |after|) && after == deck[|deck| - |after|..])
  {
    var drawn := decks.WithTopTileDrawnUntil(kind, test);
    var rest := DropUntil(decks.Deck(kind), test);
    DrawnUntilIsDropUntil(decks, kind, test);
    assert drawn.Deck(kind) == decks.WithDeck(kind, rest).Deck(kind) == rest;
    DropUntilMatches(decks.Deck(kind), test, rest);
  }

  /** What DropUntil leaves, read with FirstMatch and SomeMatch. */
  lemma DropUntilMatches(deck: seq<Tile>, test: Tile -> bool, rest: seq<Tile>)
    requires rest == DropUntil(deck, test)
    ensures rest != [] <==> SomeMatch(deck, test)
    ensures rest != [] ==> FirstMatch(deck, test, |deck| - |rest|) && rest == deck[|deck| - |rest|..]
  {
    DropUntilFindsFirstMatch(deck, test);
    assert rest != [] <==> |deck| - |rest| < |deck|;
  }

  /**
   * Once withTopTileDrawnUntil has found a tile, that tile is the top tile and drawing it
   * leaves the rest of the original deck after it, the other decks unchanged.
   */
  lemma DrawnUntilThenDrawn(decks: TileDecks, kind: TileKind, test: Tile -> bool)
    ensures var deck := decks.Deck(kind);
      var drawn := decks.WithTopTileDrawnUntil(kind, test);
      var i := |deck| - |drawn.Deck(kind)|;
      && (drawn.DeckSize(kind) > 0 <==> SomeMatch(deck, test))
      && (drawn.DeckSize(kind) > 0 ==>
           && FirstMatch(deck, test, i)
           && drawn.TopTile(kind) == Some(deck[i])
           && drawn.WithTopTileDrawn(kind).Success?
           && drawn.WithTopTileDrawn(kind).value == decks.WithDeck(kind, deck[i + 1..]))
  {
    DrawnUntilFindsFirstMatch(decks, kind, test);
    var deck := decks.Deck(kind);
    var rest := DropUntil(deck, test);
    DrawnUntilIsDropUntil(decks, kind, test);
    if rest != [] {
      DropUntilIsSuffix(deck, test);
      var drawn := decks.WithTopTileDrawnUntil(kind, test);
      assert drawn == decks.WithDeck(kind, rest);
      var i := |deck| - |rest|;
      WithDeckThenDrawn(decks, kind, rest);
      assert rest[0] == deck[i] && rest[1..] == deck[i + 1..];
      assert drawn.TopTile(kind) == Some(deck[i]);
      assert drawn.WithTopTileDrawn(kind) == Success(decks.WithDeck(kind, deck[i + 1..]));
    }
  }

  /** When drawing until the predicate holds leaves a tile, that top tile passes the test and can be drawn. */
  lemma DrawnTopPasses(decks: TileDecks, kind: TileKind, test: Tile -> bool)
    requires decks.WithTopTileDrawnUntil(kind, test).DeckSize(kind) > 0
    ensures var drawn := decks.WithTopTileDrawnUntil(kind, test);
      && drawn.TopTile(kind).Some?
      && test(drawn.TopTile(kind).value)
      && drawn.WithTopTileDrawn(kind).Success?
  {
    DrawnUntilThenDrawn(decks, kind, test);
  }

  /**
   * When the tile at index i is the first that passes the test, drawing until the test holds
   * then drawing once more takes that tile and leaves the tiles after it.
   */
  lemma DrawnFirstMatch(decks: TileDecks, kind: TileKind, test: Tile -> bool, i: int)
    requires FirstMatch(decks.Deck(kind), test, i)
    ensures var drawn := decks.WithTopTileDrawnUntil(kind, test);
      && drawn.DeckSize(kind) > 0
      && drawn.TopTile(kind) == Some(decks.Deck(kind)[i])
      && drawn.WithTopTileDrawn(kind) == Success(decks.WithDeck(kind, decks.Deck(kind)[i + 1..]))
  {
    var deck := decks.Deck(kind);
    DrawnUntilIsDropUntil(decks, kind, test);
    DropUntilFirstMatch(deck, test, i);
    WithDeckThenDrawn(decks, kind, deck[i..]);
    assert deck[i..][1..] == deck[i + 1..];
  }

  /** DropUntil leaves the deck from its first tile that passes the test. */
  lemma {:induction false} DropUntilFirstMatch(deck: seq<Tile>, test: Tile -> bool, i: int)
    requires FirstMatch(deck, test, i)
    ensures DropUntil(deck, test) == deck[i..]
    decreases i
  {
    if i > 0 {
      assert !test(deck[0]);
      var tail := deck[1..];
      assert FirstMatch(tail, test, i - 1) by {
        assert forall j :: 0 <= j < i - 1 ==> tail[j] == deck[j + 1];
      }
      DropUntilFirstMatch(tail, test, i - 1);
      assert tail[i - 1..] == deck[i..];
    }
  }

  /** When no tile passes the test, drawing until it holds empties the deck of that kind. */
  lemma DrawnNoMatch(decks: TileDecks, kind: TileKind, test: Tile -> bool)
    requires !SomeMatch(decks.Deck(kind), test)
    ensures decks.WithTopTileDrawnUntil(kind, test) == decks.WithDeck(kind, [])
  {
    DrawnUntilIsDropUntil(decks, kind, test);
    DropUntilFindsFirstMatch(decks.Deck(kind), test);
  }

  /** A value whose deck was replaced by a non-empty one has its first tile on top, and drawing it leaves the rest. */
  lemma WithDeckThenDrawn(decks: TileDecks, kind: TileKind, deck: seq<Tile>)
    requires deck != []
    ensures decks.WithDeck(kind, deck).TopTile(kind) == Some(deck[0])
    ensures decks.WithDeck(kind, deck).WithTopTileDrawn(kind) == Success(decks.WithDeck(kind, deck[1..]))
  {
    var replaced := decks.WithDeck(kind, deck);
    assert replaced.WithTopTileDrawn(kind) == Success(replaced.WithDeck(kind, deck[1..]));
    WithDeckTwice(decks, kind, deck, deck[1..]);
  }

  /** Drawing until the predicate holds a second time draws nothing more. */
  lemma DrawnUntilIsIdempotent(decks: TileDecks, kind: TileKind, test: Tile -> bool)
    ensures var once := decks.WithTopTileDrawnUntil(kind, test);
      once.WithTopTileDrawnUntil(kind, test) == once
  {
    DrawnUntilIsDropUntil(decks, kind, test);
    var rest := DropUntil(decks.Deck(kind), test);
    var once := decks.WithDeck(kind, rest);
    DrawnUntilIsDropUntil(once, kind, test);
    assert DropUntil(rest, test) == rest by {
      DropUntilFindsFirstMatch(decks.Deck(kind), test);
    }
    WithDeckTwice(decks, kind, rest, rest);
  }
}
