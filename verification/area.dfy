/**
 * An area: a group of connected zones of one kind, the colours of the occupants standing in
 * it and the number of its open connections. The zone set is a sequence without duplicates;
 * the occupant list is kept sorted by colour ordinal, as the record's constructor does.
 */
module Areas {
  import opened Wrappers
  import opened Collections
  import opened Zones

  /** The occupant list is sorted by colour ordinal. */
  predicate SortedByColor(s: seq<PlayerColor>) {
    forall i, j :: 0 <= i < j < |s| ==> s[i].Ordinal() <= s[j].Ordinal()
  }

  /** Inserts a colour into a sorted list, after the colours of smaller ordinal. */
  function Insert(c: PlayerColor, s: seq<PlayerColor>): (r: seq<PlayerColor>)
    requires SortedByColor(s)
    ensures SortedByColor(r) && multiset(r) == multiset(s) + multiset{c}
    ensures forall x :: x in r ==> x in s || x == c
    decreases |s|
  {
    if s == [] then [c]
    else if c.Ordinal() <= s[0].Ordinal() then
      SortedTail(s);
      SortedCons(c, s);
      [c] + s
    else
      SortedTail(s);
      assert s == [s[0]] + s[1..];
      var rest := Insert(c, s[1..]);
      SortedCons(s[0], rest);
      [s[0]] + rest
  }

  /** The tail of a sorted list is sorted, and no element of it is smaller than the head. */
  lemma SortedTail(s: seq<PlayerColor>)
    requires SortedByColor(s) && s != []
    ensures SortedByColor(s[1..])
    ensures forall x :: x in s ==> s[0].Ordinal() <= x.Ordinal()
  {
    forall x | x in s
      ensures s[0].Ordinal() <= x.Ordinal()
    {
      var i :| 0 <= i < |s| && s[i] == x;
    }
    forall i, j | 0 <= i < j < |s[1..]|
      ensures s[1..][i].Ordinal() <= s[1..][j].Ordinal()
    {
      assert s[1..][i] == s[i + 1] && s[1..][j] == s[j + 1];
    }
  }

  /** A colour no greater than the head of a sorted list may go before it. */
  lemma SortedCons(h: PlayerColor, t: seq<PlayerColor>)
    requires SortedByColor(t)
    requires forall x :: x in t ==> h.Ordinal() <= x.Ordinal()
    ensures SortedByColor([h] + t)
  {
    var s := [h] + t;
    forall i, j | 0 <= i < j < |s|
      ensures s[i].Ordinal() <= s[j].Ordinal()
    {
      if i > 0 {
        assert s[i] == t[i - 1] && s[j] == t[j - 1];
      } else {
        assert s[j] == t[j - 1] && s[j] in t;
      }
    }
  }

  /** copyAndSortOccupants: a sorted copy of the list, holding the same colours as often. */
  function SortByColor(s: seq<PlayerColor>): (r: seq<PlayerColor>)
    ensures SortedByColor(r) && multiset(r) == multiset(s)
  {
    if s == [] then []
    else
      assert s == [s[0]] + s[1..];
      Insert(s[0], SortByColor(s[1..]))
  }

  datatype Area = Area(zones: seq<Zone>, occupants: seq<PlayerColor>, openConnections: int) {
    /** What the constructor establishes. */
    predicate Valid() {
      NoDuplicates(zones) && SortedByColor(occupants) && openConnections >= 0
    }

    predicate IsClosed() {
      openConnections == 0
    }

    predicate IsOccupied() {
      occupants != []
    }

    /** majorityOccupants: the occupants standing there at least as often as any other colour. */
    function MajorityOccupants(): (r: set<PlayerColor>)
      ensures forall c, d :: c in r ==> Count(occupants, d) <= Count(occupants, c)
      ensures forall c :: c in r <==> c in occupants && forall d :: Count(occupants, d) <= Count(occupants, c)
      ensures r == {} <==> occupants == []
    {
      var m := MaxCount(occupants);
      var r := set c | c in occupants && Count(occupants, c) == m;
      MajorityIsMaximum(occupants);
      assert occupants != [] ==> occupants[0] in occupants;
      r
    }

    /**
     * connectTo: the union of the zones, the occupants of both areas (once when the two are
     * equal) and the open connections of both less the two that were joined.
     */
    function ConnectTo(that: Area): (r: Result<Area, Thrown>)
      ensures r.Success? <==>
        (if this == that then openConnections - 2 >= 0
         else openConnections - 2 + that.openConnections >= 0)
      ensures r.Success? ==> r.value.Valid()
      ensures r.Success? ==> Elements(r.value.zones) == Elements(zones) + Elements(that.zones)
      ensures r.Success? ==> (multiset(r.value.occupants) ==
        multiset(occupants) + (if this == that then multiset{} else multiset(that.occupants)))
      ensures r.Success? ==> (r.value.openConnections ==
        openConnections - 2 + (if this == that then 0 else that.openConnections))
      ensures r.Failure? ==> r.error == IllegalArgument
    {
      var connectedOccupants := if this == that then occupants else occupants + that.occupants;
      var connectedOpenConnections :=
        if this == that then openConnections - 2 else openConnections - 2 + that.openConnections;
      NewArea(zones + that.zones, connectedOccupants, connectedOpenConnections)
    }

    /** zoneWithSpecialPower: the first zone holding that power, or null. */
    function ZoneWithSpecialPower(power: SpecialPower): (r: Option<Zone>)
      ensures r.Some? ==> r.value in zones && r.value.SpecialPower() == Some(power)
      ensures r.None? <==> forall z :: z in zones ==> z.SpecialPower() != Some(power)
    {
      FirstWithSpecialPower(zones, power)
    }

    /** withInitialOccupant: the only occupant of an area that had none. */
    function WithInitialOccupant(occupant: PlayerColor): (r: Result<Area, Thrown>)
      ensures r.Success? <==> !IsOccupied()
      ensures r.Success? ==> r.value == Area(zones, [occupant], openConnections)
      ensures r.Failure? ==> r.error == IllegalArgument
    {
      var _ :- CheckArgument(!IsOccupied());
      Success(Area(zones, SortByColor([occupant]), openConnections))
    }

    /** withoutOccupant: one occurrence of a colour that stands there is removed. */
    function WithoutOccupant(occupant: PlayerColor): (r: Result<Area, Thrown>)
      ensures r.Success? <==> occupant in occupants
      ensures r.Success? ==> r.value.zones == zones && r.value.openConnections == openConnections
      ensures r.Success? ==> SortedByColor(r.value.occupants)
      ensures r.Success? ==> multiset(r.value.occupants) == multiset(occupants) - multiset{occupant}
      ensures r.Failure? ==> r.error == IllegalArgument
    {
      var _ :- CheckArgument(occupant in occupants);
      Success(Area(zones, SortByColor(RemoveFirst(occupants, occupant)), openConnections))
    }

    function WithoutOccupants(): (r: Area)
      ensures r.zones == zones && r.occupants == [] && r.openConnections == openConnections
    {
      Area(zones, [], openConnections)
    }

    /** tileIds: the tiles the zones lie on; there are at most as many as zones, and one at least. */
    function TileIds(): (r: set<int>)
      ensures |r| <= |zones|
      ensures zones != [] ==> |r| >= 1
      ensures forall z :: z in zones ==> z.TileId() in r
    {
      TileIdsOf(zones)
    }
  }

  /** The Area constructor: a negative number of open connections is refused; occupants are sorted. */
  function NewArea(zones: seq<Zone>, occupants: seq<PlayerColor>, openConnections: int): (r: Result<Area, Thrown>)
    ensures r.Success? <==> openConnections >= 0
    ensures r.Success? ==> r.value.Valid()
    ensures r.Success? ==> Elements(r.value.zones) == Elements(zones) && r.value.openConnections == openConnections
    ensures r.Success? ==> multiset(r.value.occupants) == multiset(occupants)
    ensures r.Failure? ==> r.error == IllegalArgument
  {
    var _ :- CheckArgument(openConnections >= 0);
    Success(Area(Distinct(zones), SortByColor(occupants), openConnections))
  }

  /** The largest number of times one colour occurs; zero for no occupants. */
  function MaxCount(s: seq<PlayerColor>): (m: nat)
    ensures forall c :: Count(s, c) <= m
    ensures s == [] ==> m == 0
    ensures m == Count(s, Red) || m == Count(s, Blue) || m == Count(s, Green) || m == Count(s, Yellow) || m == Count(s, Purple)
  {
    var counts := [Count(s, Red), Count(s, Blue), Count(s, Green), Count(s, Yellow), Count(s, Purple)];
    var m := Max(counts[0], Max(counts[1], Max(counts[2], Max(counts[3], counts[4]))));
    assert forall c: PlayerColor :: Count(s, c) == counts[c.Ordinal()];
    m
  }

  /** A colour present at least as often as any other is present as often as the maximum. */
  lemma MajorityIsMaximum(s: seq<PlayerColor>)
    ensures forall c :: (forall d :: Count(s, d) <= Count(s, c)) ==> Count(s, c) == MaxCount(s)
    ensures s != [] ==> exists c :: c in s && Count(s, c) == MaxCount(s)
  {
    var m := MaxCount(s);
    var w := if m == Count(s, Red) then Red else if m == Count(s, Blue) then Blue
      else if m == Count(s, Green) then Green else if m == Count(s, Yellow) then Yellow else Purple;
    assert Count(s, w) == m;
    forall c | forall d :: Count(s, d) <= Count(s, c)
      ensures Count(s, c) == m
    {
      assert Count(s, w) <= Count(s, c);
    }
    if s != [] {
      assert Count(s, s[0]) > 0;
      assert w in s;
    }
  }

  function Max(a: nat, b: nat): nat {
    if a < b then b else a
  }

  function FirstWithSpecialPower(zs: seq<Zone>, power: SpecialPower): (r: Option<Zone>)
    ensures r.Some? ==> r.value in zs && r.value.SpecialPower() == Some(power)
    ensures r.None? <==> forall z :: z in zs ==> z.SpecialPower() != Some(power)
  {
    if zs == [] then None
    else if zs[0].SpecialPower() == Some(power) then Some(zs[0])
    else FirstWithSpecialPower(zs[1..], power)
  }

  function TileIdsOf(zs: seq<Zone>): (r: set<int>)
    ensures |r| <= |zs|
    ensures zs != [] ==> |r| >= 1
    ensures forall z :: z in zs ==> z.TileId() in r
    ensures forall t :: t in r ==> exists z :: z in zs && z.TileId() == t
  {
    if zs == [] then {}
    else {zs[0].TileId()} + TileIdsOf(zs[1..])
  }

  /** hasMenhir: some forest zone of the area has a menhir. */
  predicate HasMenhir(forest: Area) {
    exists z :: z in forest.zones && z.ForestZone? && z.forest.kind == WithMenhir
  }

  /** mushroomGroupCount: the number of forest zones with mushrooms. */
  function MushroomGroupCount(forest: Area): (n: nat)
    ensures n <= |forest.zones|
    ensures n > 0 <==> exists z :: z in forest.zones && z.ForestZone? && z.forest.kind == WithMushrooms
    ensures forest.Valid() ==>
      n == |set z | z in forest.zones && z.ForestZone? && z.forest.kind == WithMushrooms|
  {
    CountMushrooms(forest.zones)
  }

  function CountMushrooms(zs: seq<Zone>): (n: nat)
    ensures n <= |zs|
    ensures n > 0 <==> exists z :: z in zs && z.ForestZone? && z.forest.kind == WithMushrooms
    ensures NoDuplicates(zs) ==> n == |set z | z in zs && z.ForestZone? && z.forest.kind == WithMushrooms|
  {
    if zs == [] then 0
    else
      assert forall z :: z in zs <==> z == zs[0] || z in zs[1..];
      var rest := set z | z in zs[1..] && z.ForestZone? && z.forest.kind == WithMushrooms;
      var mushrooms := zs[0].ForestZone? && zs[0].forest.kind == WithMushrooms;
      assert (set z | z in zs && z.ForestZone? && z.forest.kind == WithMushrooms)
        == (if mushrooms then rest + {zs[0]} else rest);
      assert NoDuplicates(zs) ==> NoDuplicates(zs[1..]) && zs[0] !in rest by {
        if NoDuplicates(zs) { NoDuplicatesTail(zs); }
      }
      (if mushrooms then 1 else 0) + CountMushrooms(zs[1..])
  }

  /** animals: the animals of the meadow zones that are not cancelled. */
  function Animals(meadow: Area, cancelledAnimals: set<Animal>): (r: set<Animal>)
    ensures r !! cancelledAnimals
  {
    set a | a in MeadowAnimals(meadow.zones) && a !in cancelledAnimals
  }

  /** The flatMap of the meadow zones' animals. */
  function MeadowAnimals(zs: seq<Zone>): (r: seq<Animal>)
    ensures forall a :: a in r <==> exists z :: z in zs && z.MeadowZone? && a in z.meadow.animals
  {
    if zs == [] then []
    else
      assert forall z :: z in zs <==> z == zs[0] || z in zs[1..];
      (if zs[0].MeadowZone? then zs[0].meadow.animals else []) + MeadowAnimals(zs[1..])
  }

  /** Cancelling more animals removes exactly those, and an animal counts only if some zone holds it. */
  lemma AnimalsCancel(meadow: Area, cancelled: set<Animal>, more: set<Animal>)
    ensures Animals(meadow, cancelled + more) == Animals(meadow, cancelled) - more
    ensures Animals(meadow, cancelled) <= Animals(meadow, {})
    ensures forall a :: a in Animals(meadow, {}) <==> exists z :: z in meadow.zones && z.MeadowZone? && a in z.meadow.animals
  {
    forall a | a in Animals(meadow, {})
      ensures exists z :: z in meadow.zones && z.MeadowZone? && a in z.meadow.animals
    {
    }
    forall a, z | z in meadow.zones && z.MeadowZone? && a in z.meadow.animals
      ensures a in Animals(meadow, {})
    {
    }
    forall a | a in Animals(meadow, cancelled)
      ensures a in Animals(meadow, {})
    {
    }
    forall a | a in Animals(meadow, cancelled + more)
      ensures a in Animals(meadow, cancelled) - more
    {
    }
    forall a | a in Animals(meadow, cancelled) - more
      ensures a in Animals(meadow, cancelled + more)
    {
    }
  }

  /** The fish of the river zones. */
  function RiverFish(zs: seq<Zone>): nat {
    if zs == [] then 0
    else (if zs[0].RiverZone? then zs[0].river.fishCount else 0) + RiverFish(zs[1..])
  }

  /** The lakes the river zones end in, in order, repeats included. */
  function RiverLakes(zs: seq<Zone>): seq<Lake> {
    if zs == [] then []
    else (if zs[0].RiverZone? && zs[0].river.HasLake() then [zs[0].river.lake.value] else []) + RiverLakes(zs[1..])
  }

  function LakeFish(lakes: seq<Lake>): nat {
    if lakes == [] then 0 else lakes[0].fishCount + LakeFish(lakes[1..])
  }

  /** riverFishCount: the fish of the rivers, plus those of each lake the rivers reach, counted once. */
  function RiverFishCount(river: Area): (n: nat)
    ensures n == RiverFish(river.zones) + LakeFish(Distinct(RiverLakes(river.zones)))
  {
    RiverFishCountFromSpec(river.zones, []);
    RiverFishCountFrom(river.zones, [])
  }

  /** The stream of riverFishCount, with the lakes already added so far. */
  function RiverFishCountFrom(zs: seq<Zone>, addedLakes: seq<Lake>): nat {
    if zs == [] then 0
    else if zs[0].RiverZone? then
      var river := zs[0].river;
      if river.HasLake() && river.lake.value !in addedLakes then
        river.fishCount + river.lake.value.fishCount + RiverFishCountFrom(zs[1..], addedLakes + [river.lake.value])
      else
        river.fishCount + RiverFishCountFrom(zs[1..], addedLakes)
    else RiverFishCountFrom(zs[1..], addedLakes)
  }

  lemma LakeFishAppend(lakes: seq<Lake>, l: Lake)
    ensures LakeFish(lakes + [l]) == LakeFish(lakes) + l.fishCount
  {
    if lakes != [] {
      assert (lakes + [l])[1..] == lakes[1..] + [l];
      LakeFishAppend(lakes[1..], l);
    }
  }

  lemma {:induction false} RiverFishCountFromSpec(zs: seq<Zone>, addedLakes: seq<Lake>)
    requires NoDuplicates(addedLakes)
    ensures RiverFishCountFrom(zs, addedLakes) + LakeFish(addedLakes) ==
      RiverFish(zs) + LakeFish(DistinctAfter(RiverLakes(zs), addedLakes))
    decreases |zs|
  {
    if zs == [] {
    } else {
      var rest := RiverLakes(zs[1..]);
      if zs[0].RiverZone? && zs[0].river.HasLake() {
        var l := zs[0].river.lake.value;
        assert RiverLakes(zs) == [l] + rest;
        assert ([l] + rest)[1..] == rest;
        if l !in addedLakes {
          assert NoDuplicates(addedLakes + [l]);
          RiverFishCountFromSpec(zs[1..], addedLakes + [l]);
          LakeFishAppend(addedLakes, l);
        } else {
          RiverFishCountFromSpec(zs[1..], addedLakes);
        }
      } else {
        assert RiverLakes(zs) == rest;
        RiverFishCountFromSpec(zs[1..], addedLakes);
      }
    }
  }

  /** lakeCount: the number of lake zones. */
  function LakeCount(riverSystem: Area): (n: nat)
    ensures n <= |riverSystem.zones|
    ensures n > 0 <==> exists z :: z in riverSystem.zones && z.LakeZone?
    ensures riverSystem.Valid() ==> n == |set z | z in riverSystem.zones && z.LakeZone?|
  {
    CountLakes(riverSystem.zones)
  }

  function CountLakes(zs: seq<Zone>): (n: nat)
    ensures n <= |zs|
    ensures n > 0 <==> exists z :: z in zs && z.LakeZone?
    ensures NoDuplicates(zs) ==> n == |set z | z in zs && z.LakeZone?|
  {
    if zs == [] then 0
    else
      assert forall z :: z in zs <==> z == zs[0] || z in zs[1..];
      var rest := set z | z in zs[1..] && z.LakeZone?;
      assert (set z | z in zs && z.LakeZone?) == (if zs[0].LakeZone? then rest + {zs[0]} else rest);
      assert NoDuplicates(zs) ==> NoDuplicates(zs[1..]) && zs[0] !in rest by {
        if NoDuplicates(zs) { NoDuplicatesTail(zs); }
      }
      (if zs[0].LakeZone? then 1 else 0) + CountLakes(zs[1..])
  }

  /** riverSystemFishCount: the fish of every water zone. */
  function RiverSystemFishCount(riverSystem: Area): (n: nat)
    ensures n >= RiverFish(riverSystem.zones)
    ensures n == RiverFish(riverSystem.zones) + LakeZoneFish(riverSystem.zones)
  {
    WaterFish(riverSystem.zones)
  }

  function WaterFish(zs: seq<Zone>): (n: nat)
    ensures n == RiverFish(zs) + LakeZoneFish(zs)
  {
    if zs == [] then 0
    else (if zs[0].IsWater() then zs[0].FishCount() else 0) + WaterFish(zs[1..])
  }

  /** The fish of the lake zones. */
  function LakeZoneFish(zs: seq<Zone>): nat {
    if zs == [] then 0
    else (if zs[0].LakeZone? then zs[0].lake.fishCount else 0) + LakeZoneFish(zs[1..])
  }

  lemma {:induction false} SortSorted(s: seq<PlayerColor>)
    requires SortedByColor(s)
    ensures SortByColor(s) == s
  {
    if s != [] {
      SortSorted(s[1..]);
      assert s == [s[0]] + s[1..];
    }
  }

  /** Connecting a well-formed area to itself only closes two of its open connections. */
  lemma ConnectToItself(a: Area)
    requires a.Valid()
    ensures a.ConnectTo(a).Success? <==> a.openConnections >= 2
    ensures a.ConnectTo(a).Success? ==> a.ConnectTo(a).value == a.(openConnections := a.openConnections - 2)
  {
    if a.openConnections >= 2 {
      DistinctAfterConcat(a.zones, a.zones, []);
      DistinctAfterNoDuplicates(a.zones, []);
      assert [] + a.zones == a.zones;
      DistinctAfterSeen(a.zones, a.zones);
      SortSorted(a.occupants);
    }
  }

  /** The area holds the colours given and nothing else once constructed; the empty area is valid. */
  lemma InitialOccupantRoundTrip(a: Area, c: PlayerColor)
    requires a.Valid() && !a.IsOccupied()
    ensures a.WithInitialOccupant(c).Success?
    ensures a.WithInitialOccupant(c).value.Valid() && a.WithInitialOccupant(c).value.MajorityOccupants() == {c}
    ensures a.WithInitialOccupant(c).value.WithoutOccupant(c) == Success(a)
  {
    var b := a.WithInitialOccupant(c).value;
    assert Count(b.occupants, c) == 1;
    var r := b.WithoutOccupant(c).value;
    assert multiset(r.occupants) == multiset{};
  }
}
