/**
 * The French texts of the message board. The templates are string expressions; itemsToString
 * appends to a buffer in an index loop and is a method proved to build the list text defined
 * by Joined. An interpolated missing player name is the text "null", as in a Java template.
 */
module TextMaker {
  import opened Wrappers
  import opened Zones

  /** The items the texts count, with their French names. */
  datatype GameItem = MushroomGroup | Fish | LakeItem | TileItem {
    function FrenchName(): string {
      match this
      case MushroomGroup => "groupe"
      case Fish => "poisson"
      case LakeItem => "lac"
      case TileItem => "tuile"
    }
  }

  function AnimalFrenchName(kind: AnimalKind): string {
    match kind
    case Mammoth => "mammouth"
    case Aurochs => "auroch"
    case Deer => "cerf"
    case Tiger => "tigre"
  }

  /** The animal kinds in their declaration order, the order of the map's keys once sorted. */
  const AnimalKindsInOrder: seq<AnimalKind> := [Mammoth, Aurochs, Deer, Tiger]

  predicate EndsWith(s: string, suffix: string) {
    |suffix| <= |s| && s[|s| - |suffix|..] == suffix
  }

  predicate StartsWith(s: string, prefix: string) {
    |prefix| <= |s| && s[..|prefix|] == prefix
  }

  /** The decimal digits of a natural number. */
  function NatToString(n: nat): (s: string)
    ensures |s| >= 1
    ensures forall i :: 0 <= i < |s| ==> '0' <= s[i] <= '9'
  {
    var digit := ['0' + (n % 10) as char];
    if n < 10 then digit else NatToString(n / 10) + digit
  }

  /** The value of a string of decimal digits. */
  function DigitsValue(s: string): nat
    requires forall i :: 0 <= i < |s| ==> '0' <= s[i] <= '9'
  {
    if s == [] then 0 else 10 * DigitsValue(s[..|s| - 1]) + (s[|s| - 1] - '0') as nat
  }

  /** Reading the digits back gives the number. */
  lemma {:induction false} NatToStringRoundTrip(n: nat)
    ensures DigitsValue(NatToString(n)) == n
  {
    var s := NatToString(n);
    if n >= 10 {
      NatToStringRoundTrip(n / 10);
      assert s[..|s| - 1] == NatToString(n / 10);
    }
  }

  /** An int as a Java template writes it. */
  function IntToString(n: int): (s: string)
    ensures n >= 0 ==> s == NatToString(n)
    ensures n < 0 ==> s == "-" + NatToString(-n)
  {
    if n < 0 then "-" + NatToString(-n) else NatToString(n)
  }

  /** pluralize: the word with an "s" exactly when the count is above one. */
  function Pluralize(word: string, count: int): (r: string)
    ensures StartsWith(r, word)
    ensures count > 1 <==> |r| == |word| + 1
    ensures count > 1 ==> r[|word|] == 's'
    ensures count <= 1 ==> r == word
  {
    if count > 1 then word + "s" else word
  }

  /** pluralizeGameItems: the count, a space, then the item's name, pluralized by the count. */
  function PluralizeGameItems(item: GameItem, count: int): (r: string)
    ensures count > 1 ==> r == IntToString(count) + " " + item.FrenchName() + "s"
    ensures count <= 1 ==> r == IntToString(count) + " " + item.FrenchName()
  {
    IntToString(count) + " " + Pluralize(item.FrenchName(), count)
  }

  /** points: "n point", or "n points" when n is above one. */
  function Points(points: int): (r: string)
    ensures points > 1 ==> r == IntToString(points) + " points"
    ensures points <= 1 ==> r == IntToString(points) + " point"
  {
    IntToString(points) + " " + Pluralize("point", points)
  }

  /**
   * A list of items: ", " between them and " et " before the last, as in "a, b et c". The
   * source rejects an empty list.
   */
  function Joined(items: seq<string>): (r: string)
    requires |items| >= 1
    ensures StartsWith(r, items[0]) && EndsWith(r, items[|items| - 1])
    ensures |items| == 2 ==> r == items[0] + " et " + items[1]
    ensures |items| > 2 ==> r == items[0] + ", " + Joined(items[1..])
    decreases |items|
  {
    if |items| == 1 then items[0]
    else if |items| == 2 then items[0] + " et " + items[1]
    else items[0] + ", " + Joined(items[1..])
  }

  /** What itemsToString appends after the item at index i of n. */
  function Separator(i: int, n: int): string {
    if i < n - 2 then ", " else if i == n - 2 then " et " else ""
  }

  /** What itemsToString appends from index i to the end. */
  function Rest(items: seq<string>, i: nat): string
    requires i <= |items|
    decreases |items| - i
  {
    if i == |items| then "" else items[i] + Separator(i, |items|) + Rest(items, i + 1)
  }

  /** The loop's text from any index before the last is the list text of the items from there. */
  lemma {:induction false} RestIsJoined(items: seq<string>, i: nat)
    requires i < |items|
    ensures Rest(items, i) == Joined(items[i..])
    decreases |items| - i
  {
    var n := |items|;
    if i == n - 1 {
      assert Rest(items, i + 1) == "";
      assert items[i..] == [items[i]];
    } else {
      RestIsJoined(items, i + 1);
      assert items[i..][1..] == items[i + 1..];
      if i == n - 2 {
        assert Rest(items, i + 1) == items[n - 1] + "" + "";
        assert items[i + 1..] == [items[n - 1]];
      }
    }
  }

  /** itemsToString: the list text, built in one pass; an empty list is rejected. */
  method ItemsToString(items: seq<string>) returns (r: Result<string, Thrown>)
    ensures r.Success? <==> |items| >= 1
    ensures r.Success? ==> r.value == Joined(items)
    ensures r.Failure? ==> r.error == IllegalArgument
  {
    if |items| == 0 {
      return Failure(IllegalArgument);
    }
    var sb := "";
    for i := 0 to |items|
      invariant sb + Rest(items, i) == Rest(items, 0)
    {
      ghost var before := sb;
      sb := sb + items[i];
      sb := sb + (if i < |items| - 2 then ", " else if i == |items| - 2 then " et " else "");
      RestStep(items, i, before, sb);
    }
    ItemsTextIsJoined(items, sb);
    return Success(sb);
  }

  /** One pass of itemsToString's loop moves item i and its separator from Rest into the text. */
  lemma RestStep(items: seq<string>, i: nat, before: string, after: string)
    requires i < |items|
    requires after == before + items[i] + Separator(i, |items|)
    ensures after + Rest(items, i + 1) == before + Rest(items, i)
  {
    assert Rest(items, i) == (items[i] + Separator(i, |items|)) + Rest(items, i + 1);
  }

  /** The text left by itemsToString's loop is the list text. */
  lemma ItemsTextIsJoined(items: seq<string>, text: string)
    requires |items| >= 1 && text + Rest(items, |items|) == Rest(items, 0)
    ensures text == Joined(items)
  {
    RestIsJoined(items, 0);
    assert items[0..] == items;
    assert text + "" == text;
  }

  /** The colours of a set in PlayerColor order. */
  function SortedColors(colors: set<PlayerColor>): (r: seq<PlayerColor>)
    ensures forall c :: c in r <==> c in colors
    ensures forall i, j :: 0 <= i < j < |r| ==> r[i].Ordinal() < r[j].Ordinal()
  {
    AllColorsInOrder();
    FilterColors(AllColors, colors)
  }

  /** The colours of s that are in the set, in the order of s. */
  function FilterColors(s: seq<PlayerColor>, colors: set<PlayerColor>): (r: seq<PlayerColor>)
    requires forall i, j :: 0 <= i < j < |s| ==> s[i].Ordinal() < s[j].Ordinal()
    ensures forall c :: c in r <==> c in s && c in colors
    ensures forall i, j :: 0 <= i < j < |r| ==> r[i].Ordinal() < r[j].Ordinal()
  {
    if s == [] then []
    else
      var rest := FilterColors(s[1..], colors);
      if s[0] in colors then
        assert forall x :: x in rest ==> x in s[1..];
        ConsInColorOrder(s[0], s[1..], rest);
        [s[0]] + rest
      else rest
  }

  /** A colour before every colour of an ordered sequence keeps it ordered when put in front. */
  lemma ConsInColorOrder(x: PlayerColor, tail: seq<PlayerColor>, rest: seq<PlayerColor>)
    requires forall i, j :: 0 <= i < j < |[x] + tail| ==> ([x] + tail)[i].Ordinal() < ([x] + tail)[j].Ordinal()
    requires forall y :: y in rest ==> y in tail
    requires forall i, j :: 0 <= i < j < |rest| ==> rest[i].Ordinal() < rest[j].Ordinal()
    ensures forall i, j :: 0 <= i < j < |[x] + rest| ==> ([x] + rest)[i].Ordinal() < ([x] + rest)[j].Ordinal()
  {
    var r := [x] + rest;
    forall i, j | 0 <= i < j < |r|
      ensures r[i].Ordinal() < r[j].Ordinal()
    {
      if i == 0 {
        assert r[j] == rest[j - 1] && rest[j - 1] in rest;
        var k :| 0 <= k < |tail| && tail[k] == rest[j - 1];
        var xt := [x] + tail;
        assert xt[0] == x && xt[k + 1] == tail[k];
        assert xt[0].Ordinal() < xt[k + 1].Ordinal();
      } else {
        assert r[i] == rest[i - 1] && r[j] == rest[j - 1];
        assert rest[i - 1].Ordinal() < rest[j - 1].Ordinal();
      }
    }
  }

  /** Filtering a strictly ordered sequence by one of its colours keeps that colour alone. */
  lemma {:induction false} FilterSingleton(s: seq<PlayerColor>, c: PlayerColor)
    requires forall i, j :: 0 <= i < j < |s| ==> s[i].Ordinal() < s[j].Ordinal()
    requires c in s
    ensures FilterColors(s, {c}) == [c]
  {
    if s[0] == c {
      var rest := FilterColors(s[1..], {c});
      assert c !in s[1..] by {
        assert forall k :: 0 < k < |s| ==> s[0].Ordinal() < s[k].Ordinal();
      }
      NonEmptyHasFirst(rest);
    } else {
      FilterSingleton(s[1..], c);
    }
  }

  /** A non-empty sequence holds its first element. */
  lemma NonEmptyHasFirst(s: seq<PlayerColor>)
    ensures s != [] ==> s[0] in s
  {
  }

  lemma AllColorsInOrder()
    ensures forall i, j :: 0 <= i < j < |AllColors| ==> AllColors[i].Ordinal() < AllColors[j].Ordinal()
    ensures forall c: PlayerColor :: c in AllColors
  {
    forall c: PlayerColor ensures c in AllColors {
      AllColorsByOrdinal(c);
    }
  }

  lemma AllAnimalKindsInOrder()
    ensures forall k: AnimalKind :: k in AnimalKindsInOrder
  {
    forall k: AnimalKind ensures k in AnimalKindsInOrder {
      match k
      case Mammoth => assert AnimalKindsInOrder[0] == k;
      case Aurochs => assert AnimalKindsInOrder[1] == k;
      case Deer => assert AnimalKindsInOrder[2] == k;
      case Tiger => assert AnimalKindsInOrder[3] == k;
    }
  }

  /** The concatenation starts with its first part and ends with its second. */
  lemma ConcatEnds(a: string, b: string)
    ensures StartsWith(a + b, a) && EndsWith(a + b, b)
  {
    assert (a + b)[..|a|] == a;
    assert (a + b)[|a + b| - |b|..] == b;
  }

  /** One animal kind with its count, "n name" with the name pluralized. */
  function AnimalText(kind: AnimalKind, count: int): string {
    IntToString(count) + " " + Pluralize(AnimalFrenchName(kind), count)
  }

  /** The kinds of the sequence with a positive count, in the order of the sequence, as texts. */
  function AnimalItems(kinds: seq<AnimalKind>, animals: map<AnimalKind, int>): (r: seq<string>)
    ensures |r| <= |kinds|
    ensures |r| == 0 <==> forall k :: k in kinds && k in animals ==> animals[k] <= 0
    ensures forall k :: k in kinds && k in animals && animals[k] > 0 ==> AnimalText(k, animals[k]) in r
    ensures forall t :: t in r ==> exists k :: k in kinds && k in animals && animals[k] > 0 && t == AnimalText(k, animals[k])
  {
    if kinds == [] then []
    else
      var k := kinds[0];
      var rest := AnimalItems(kinds[1..], animals);
      assert forall j :: j in kinds <==> j == k || j in kinds[1..];
      if k in animals && animals[k] > 0 then [AnimalText(k, animals[k])] + rest
      else rest
  }

  /**
   * The texts of one game, for a map from colours to player names. Every text that names
   * scorers is a Result: the source rejects an empty set of scorers, and an animal list
   * with no animal in it.
   */
  datatype TextMakerFr = TextMakerFr(names: map<PlayerColor, string>) {

    /** playerName: the name of the colour, or nothing (null) for a colour with no name. */
    function PlayerName(color: PlayerColor): (r: Option<string>)
      ensures r.Some? <==> color in names
      ensures r.Some? ==> r.value == names[color]
    {
      if color in names then Some(names[color]) else None
    }

    /** A player name as a template writes it: "null" for a colour with no name. */
    function NameText(color: PlayerColor): string {
      match PlayerName(color)
      case Some(name) => name
      case None => "null"
    }

    /** The names of the colours, in order. */
    function NamesOf(colors: seq<PlayerColor>): (r: seq<string>)
      ensures |r| == |colors|
      ensures forall i :: 0 <= i < |colors| ==> r[i] == NameText(colors[i])
    {
      if colors == [] then [] else [NameText(colors[0])] + NamesOf(colors[1..])
    }

    /** The scorers' names in colour order, as a list text. */
    function ScorerList(scorers: set<PlayerColor>): string
      requires scorers != {}
    {
      var sorted := SortedColors(scorers);
      var c :| c in scorers;
      assert c in sorted;
      Joined(NamesOf(sorted))
    }

    /**
     * earnMessage: the scorers' names in colour order, then "a" for one scorer and "ont" for
     * several, then "remporté".
     */
    function EarnMessage(scorers: set<PlayerColor>): (r: Result<string, Thrown>)
      ensures r.Success? <==> scorers != {}
      ensures r.Success? ==> StartsWith(r.value, ScorerList(scorers))
      ensures r.Success? ==> EndsWith(r.value, if |scorers| == 1 then " a remporté" else " ont remporté")
      ensures r.Failure? ==> r.error == IllegalArgument
    {
      var _ :- CheckArgument(scorers != {});
      var verb := if |scorers| == 1 then " a remporté" else " ont remporté";
      ConcatEnds(ScorerList(scorers), verb);
      Success(ScorerList(scorers) + verb)
    }

    /** The earn message of a single scorer is that player's name followed by "a remporté". */
    lemma SingletonMessage(scorer: PlayerColor)
      ensures EarnMessage({scorer}).Success?
      ensures EarnMessage({scorer}).value == NameText(scorer) + " a remporté"
    {
      AllColorsInOrder();
      FilterSingleton(AllColors, scorer);
      var sorted := SortedColors({scorer});
      assert NamesOf(sorted) == [NameText(scorer)];
      assert ScorerList({scorer}) == NameText(scorer);
      assert |{scorer}| == 1;
      assert EarnMessage({scorer}) == Success(ScorerList({scorer}) + " a remporté");
    }

    /** earnMessagePoints: the earn message followed by the points. */
    function EarnMessagePoints(scorers: set<PlayerColor>, points: int): (r: Result<string, Thrown>)
      ensures r.Success? <==> scorers != {}
      ensures r.Success? ==> StartsWith(r.value, EarnMessage(scorers).value)
      ensures r.Success? ==> EndsWith(r.value, " " + Points(points))
      ensures r.Failure? ==> r.error == IllegalArgument
    {
      var earn :- EarnMessage(scorers);
      ConcatEnds(earn, " " + Points(points));
      Success(earn + (" " + Points(points)))
    }

    /** earnMessageMajorityOccupants: "occupant·e" and "majoritaire" take the plural with several scorers. */
    function EarnMessageMajorityOccupants(scorers: set<PlayerColor>, points: int): (r: Result<string, Thrown>)
      ensures r.Success? <==> scorers != {}
      ensures r.Success? ==> StartsWith(r.value, EarnMessagePoints(scorers, points).value)
      ensures r.Success? ==> EndsWith(r.value, (if |scorers| > 1 then "·s" else "") + " " + Pluralize("majoritaire", |scorers|))
      ensures r.Failure? ==> r.error == IllegalArgument
    {
      var count := |scorers|;
      var earn :- EarnMessagePoints(scorers, points);
      var majority := (if count > 1 then "·s" else "") + " " + Pluralize("majoritaire", count);
      ConcatEnds(earn, " en tant qu'occupant·e" + majority);
      ConcatEnds(" en tant qu'occupant·e", majority);
      EndsWithConcat(earn, " en tant qu'occupant·e" + majority, majority);
      Success(earn + (" en tant qu'occupant·e" + majority))
    }

    /** animalsToString: the kinds with a positive count, in kind order; none at all is rejected. */
    function AnimalsToString(animals: map<AnimalKind, int>): (r: Result<string, Thrown>)
      ensures r.Success? <==> exists k :: k in animals && animals[k] > 0
      ensures r.Success? ==> AnimalItems(AnimalKindsInOrder, animals) != [] && r.value == Joined(AnimalItems(AnimalKindsInOrder, animals))
      ensures r.Failure? ==> r.error == IllegalArgument
    {
      var items := AnimalItems(AnimalKindsInOrder, animals);
      AllAnimalKindsInOrder();
      var _ :- CheckArgument(items != []);
      Success(Joined(items))
    }

    function PlayerClosedForestWithMenhir(player: PlayerColor): (r: string)
      ensures StartsWith(r, NameText(player))
      ensures EndsWith(r, " placer une tuile menhir.")
    {
      var tail := " a fermé une forêt contenant un menhir et peut donc placer une tuile menhir.";
      ConcatEnds(NameText(player), tail);
      EndsWithConcat(NameText(player), tail, " placer une tuile menhir.");
      NameText(player) + tail
    }

    /** playersScoredForest: mushroom groups are mentioned only when there are some. */
    function PlayersScoredForest(scorers: set<PlayerColor>, points: int, mushroomGroupCount: int, tileCount: int): (r: Result<string, Thrown>)
      ensures r.Success? <==> scorers != {}
      ensures r.Success? ==> StartsWith(r.value, EarnMessageMajorityOccupants(scorers, points).value)
      ensures r.Success? ==> EndsWith(r.value, ForestTail(mushroomGroupCount, tileCount))
      ensures r.Failure? ==> r.error == IllegalArgument
    {
      var majority :- EarnMessageMajorityOccupants(scorers, points);
      ConcatEnds(majority, ForestTail(mushroomGroupCount, tileCount));
      Success(majority + ForestTail(mushroomGroupCount, tileCount))
    }

    /** playersScoredRiver: the fish are mentioned only when there are some. */
    function PlayersScoredRiver(scorers: set<PlayerColor>, points: int, fishCount: int, tileCount: int): (r: Result<string, Thrown>)
      ensures r.Success? <==> scorers != {}
      ensures r.Success? ==> StartsWith(r.value, EarnMessageMajorityOccupants(scorers, points).value)
      ensures r.Success? ==> EndsWith(r.value, RiverTail(fishCount, tileCount))
      ensures r.Failure? ==> r.error == IllegalArgument
    {
      var majority :- EarnMessageMajorityOccupants(scorers, points);
      ConcatEnds(majority, RiverTail(fishCount, tileCount));
      Success(majority + RiverTail(fishCount, tileCount))
    }

    /** playerScoredHuntingTrap: one scorer, and the animals of the meadow. */
    function PlayerScoredHuntingTrap(scorer: PlayerColor, points: int, animals: map<AnimalKind, int>): (r: Result<string, Thrown>)
      ensures r.Success? <==> exists k :: k in animals && animals[k] > 0
      ensures r.Success? ==> StartsWith(r.value, EarnMessagePoints({scorer}, points).value)
      ensures r.Success? ==> EndsWith(r.value, AnimalsToString(animals).value + ".")
      ensures r.Failure? ==> r.error == IllegalArgument
    {
      var earn := EarnMessagePoints({scorer}, points).value;
      var list :- AnimalsToString(animals);
      var tail := " en plaçant la fosse à pieux dans un pré dans lequel elle est entourée de " + (list + ".");
      ConcatEnds(earn, tail);
      ConcatEnds(" en plaçant la fosse à pieux dans un pré dans lequel elle est entourée de ", list + ".");
      EndsWithConcat(earn, tail, list + ".");
      Success(earn + tail)
    }

    /** playerScoredLogboat: one scorer and the lake count. */
    function PlayerScoredLogboat(scorer: PlayerColor, points: int, lakeCount: int): (r: string)
      ensures StartsWith(r, EarnMessagePoints({scorer}, points).value)
      ensures EndsWith(r, PluralizeGameItems(LakeItem, lakeCount) + ".")
    {
      var earn := EarnMessagePoints({scorer}, points).value;
      var lakes := PluralizeGameItems(LakeItem, lakeCount);
      var tail := " en plaçant la pirogue dans un réseau hydrographique contenant " + (lakes + ".");
      ConcatEnds(earn, tail);
      ConcatEnds(" en plaçant la pirogue dans un réseau hydrographique contenant ", lakes + ".");
      EndsWithConcat(earn, tail, lakes + ".");
      earn + tail
    }

    /** playersScoredMeadow. */
    function PlayersScoredMeadow(scorers: set<PlayerColor>, points: int, animals: map<AnimalKind, int>): (r: Result<string, Thrown>)
      ensures r.Success? <==> scorers != {} && exists k :: k in animals && animals[k] > 0
      ensures r.Success? ==> StartsWith(r.value, EarnMessageMajorityOccupants(scorers, points).value)
      ensures r.Success? ==> EndsWith(r.value, " d'un pré contenant " + AnimalsToString(animals).value + ".")
      ensures r.Failure? ==> r.error == IllegalArgument
    {
      var majority :- EarnMessageMajorityOccupants(scorers, points);
      var list :- AnimalsToString(animals);
      ConcatEnds(majority, " d'un pré contenant " + list + ".");
      Success(majority + (" d'un pré contenant " + list + "."))
    }

    /** playersScoredRiverSystem. */
    function PlayersScoredRiverSystem(scorers: set<PlayerColor>, points: int, fishCount: int): (r: Result<string, Thrown>)
      ensures r.Success? <==> scorers != {}
      ensures r.Success? ==> StartsWith(r.value, EarnMessageMajorityOccupants(scorers, points).value)
      ensures r.Success? ==> EndsWith(r.value, " d'un réseau hydrographique contenant " + PluralizeGameItems(Fish, fishCount) + ".")
      ensures r.Failure? ==> r.error == IllegalArgument
    {
      var majority :- EarnMessageMajorityOccupants(scorers, points);
      var tail := " d'un réseau hydrographique contenant " + PluralizeGameItems(Fish, fishCount) + ".";
      ConcatEnds(majority, tail);
      Success(majority + tail)
    }

    /** playersScoredPitTrap. */
    function PlayersScoredPitTrap(scorers: set<PlayerColor>, points: int, animals: map<AnimalKind, int>): (r: Result<string, Thrown>)
      ensures r.Success? <==> scorers != {} && exists k :: k in animals && animals[k] > 0
      ensures r.Success? ==> StartsWith(r.value, EarnMessageMajorityOccupants(scorers, points).value)
      ensures r.Success? ==> EndsWith(r.value, " la grande fosse à pieux entourée de " + AnimalsToString(animals).value + ".")
      ensures r.Failure? ==> r.error == IllegalArgument
    {
      var majority :- EarnMessageMajorityOccupants(scorers, points);
      var list :- AnimalsToString(animals);
      var tail := " d'un pré contenant" + (" la grande fosse à pieux entourée de " + list + ".");
      ConcatEnds(majority, tail);
      ConcatEnds(" d'un pré contenant", " la grande fosse à pieux entourée de " + list + ".");
      EndsWithConcat(majority, tail, " la grande fosse à pieux entourée de " + list + ".");
      Success(majority + tail)
    }

    /** playersScoredRaft. */
    function PlayersScoredRaft(scorers: set<PlayerColor>, points: int, lakeCount: int): (r: Result<string, Thrown>)
      ensures r.Success? <==> scorers != {}
      ensures r.Success? ==> StartsWith(r.value, EarnMessageMajorityOccupants(scorers, points).value)
      ensures r.Success? ==> EndsWith(r.value, " le radeau et " + PluralizeGameItems(LakeItem, lakeCount) + ".")
      ensures r.Failure? ==> r.error == IllegalArgument
    {
      var majority :- EarnMessageMajorityOccupants(scorers, points);
      var lakes := " le radeau et " + PluralizeGameItems(LakeItem, lakeCount) + ".";
      var tail := " d'un réseau hydrographique contenant" + lakes;
      ConcatEnds(majority, tail);
      ConcatEnds(" d'un réseau hydrographique contenant", lakes);
      EndsWithConcat(majority, tail, lakes);
      Success(majority + tail)
    }

    /** playersWon. */
    function PlayersWon(winners: set<PlayerColor>, points: int): (r: Result<string, Thrown>)
      ensures r.Success? <==> winners != {}
      ensures r.Success? ==> StartsWith(r.value, EarnMessage(winners).value)
      ensures r.Success? ==> EndsWith(r.value, " la partie avec " + Points(points) + " !")
      ensures r.Failure? ==> r.error == IllegalArgument
    {
      var earn :- EarnMessage(winners);
      ConcatEnds(earn, " la partie avec " + Points(points) + " !");
      Success(earn + (" la partie avec " + Points(points) + " !"))
    }
  }

  /** The end of a forest text: the tiles, then the mushroom groups only when there are some. */
  function ForestTail(mushroomGroupCount: int, tileCount: int): (t: string)
    ensures StartsWith(t, " d'une forêt composée de " + PluralizeGameItems(TileItem, tileCount))
    ensures mushroomGroupCount > 0 ==>
      EndsWith(t, " et de " + PluralizeGameItems(MushroomGroup, mushroomGroupCount) + " de champignons.")
    ensures mushroomGroupCount <= 0 ==> t == " d'une forêt composée de " + PluralizeGameItems(TileItem, tileCount) + "."
  {
    var tiles := " d'une forêt composée de " + PluralizeGameItems(TileItem, tileCount);
    var mushrooms := if mushroomGroupCount > 0
      then " et de " + PluralizeGameItems(MushroomGroup, mushroomGroupCount) + " de champignons."
      else ".";
    ConcatEnds(tiles, mushrooms);
    tiles + mushrooms
  }

  /** The end of a river text: the tiles, then the fish only when there are some. */
  function RiverTail(fishCount: int, tileCount: int): (t: string)
    ensures StartsWith(t, " d'une rivière composée de " + PluralizeGameItems(TileItem, tileCount))
    ensures fishCount > 0 ==> EndsWith(t, " et contenant " + PluralizeGameItems(Fish, fishCount) + ".")
    ensures fishCount <= 0 ==> t == " d'une rivière composée de " + PluralizeGameItems(TileItem, tileCount) + "."
  {
    var tiles := " d'une rivière composée de " + PluralizeGameItems(TileItem, tileCount);
    var fish := if fishCount > 0 then " et contenant " + PluralizeGameItems(Fish, fishCount) + "." else ".";
    ConcatEnds(tiles, fish);
    tiles + fish
  }

  /** A suffix of the second part is a suffix of the whole. */
  lemma EndsWithConcat(a: string, b: string, suffix: string)
    requires EndsWith(b, suffix)
    ensures EndsWith(a + b, suffix)
  {
    assert (a + b)[|a + b| - |suffix|..] == b[|b| - |suffix|..];
  }

  const ClickToOccupy: string := "Cliquez sur le pion ou la hutte que vous désirez placer, ou ici pour ne pas en placer."
  const ClickToUnoccupy: string := "Cliquez sur le pion que vous désirez reprendre, ou ici pour ne pas en reprendre."
}
