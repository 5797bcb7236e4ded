/**
 * What the scoring operations of the message board write, seen as scores: the points of each
 * appended message, its scorers and its tiles. The texts are left aside; they are stated by
 * the message board and the text maker. A score list describes the messages an operation,
 * or a sequence of operations, appends, in order.
 */
module Scores {
  import opened Wrappers
  import opened Zones
  import opened Areas
  import opened Messages

  /** The points, scorers and tiles of one message. */
  datatype Score = Score(points: int, scorers: set<PlayerColor>, tileIds: set<int>)

  function ScoreOf(m: Message): Score {
    Score(m.points, m.scorers, m.tileIds)
  }

  /** The score of each message, in order. */
  function ScoresOf(ms: seq<Message>): (r: seq<Score>)
    ensures |r| == |ms|
    ensures forall i :: 0 <= i < |ms| ==> r[i] == ScoreOf(ms[i])
  {
    if ms == [] then [] else [ScoreOf(ms[0])] + ScoresOf(ms[1..])
  }

  lemma ScoresOfAppend(a: seq<Message>, b: seq<Message>)
    ensures ScoresOf(a + b) == ScoresOf(a) + ScoresOf(b)
  {
  }

  /** after keeps the messages of before as a prefix and appends messages with these scores. */
  predicate Extends(before: seq<Message>, after: seq<Message>, scores: seq<Score>) {
    && |before| <= |after|
    && after[..|before|] == before
    && ScoresOf(after[|before|..]) == scores
  }

  lemma ExtendsItself(ms: seq<Message>)
    ensures Extends(ms, ms, [])
  {
  }

  /** Two extensions in a row are one extension by both score lists, in order. */
  lemma ExtendsTrans(a: seq<Message>, b: seq<Message>, c: seq<Message>, s: seq<Score>, t: seq<Score>)
    requires Extends(a, b, s) && Extends(b, c, t)
    ensures Extends(a, c, s + t)
  {
    assert c[..|a|] == b[..|a|];
    assert c[|a|..] == b[|a|..] + c[|b|..];
    ScoresOfAppend(b[|a|..], c[|b|..]);
  }

  /** One message appended with these points, scorers and tiles is an extension by its score. */
  lemma AppendedScore(b: MessageBoard, after: MessageBoard, points: int, scorers: set<PlayerColor>, tileIds: set<int>)
    requires b.AppendedTo(after, points, scorers, tileIds)
    ensures Extends(b.messages, after.messages, [Score(points, scorers, tileIds)])
  {
    assert after.messages[|b.messages|..] == [after.messages[|b.messages|]];
  }

  /**
   * What withScoredMeadow, and withScoredPitTrap on the meadow around a pit trap, write: the
   * meadow points of the animals not cancelled, to the majority occupants, on the meadow's
   * tiles; nothing when those animals are worth nothing or nobody occupies the meadow.
   */
  function MeadowScore(meadow: Area, cancelledAnimals: set<Animal>): (r: seq<Score>)
    ensures |r| <= 1
    ensures r != [] <==> meadow.IsOccupied() && exists a :: a in Animals(meadow, cancelledAnimals) && a.kind in {Mammoth, Aurochs, Deer}
  {
    var points := MeadowPoints(Animals(meadow, cancelledAnimals));
    if points <= 0 || !meadow.IsOccupied() then []
    else [Score(points, meadow.MajorityOccupants(), meadow.TileIds())]
  }

  /** What withScoredRiverSystem writes: one point per fish of the system, to its majority occupants. */
  function RiverSystemScore(riverSystem: Area): (r: seq<Score>)
    ensures |r| <= 1
    ensures r != [] <==> riverSystem.IsOccupied() && RiverSystemFishCount(riverSystem) > 0
  {
    if !riverSystem.IsOccupied() || RiverSystemFishCount(riverSystem) == 0 then []
    else [Score(RiverSystemFishCount(riverSystem), riverSystem.MajorityOccupants(), riverSystem.TileIds())]
  }

  /** What a raft adds: one point per lake of the system, to its majority occupants; nothing without raft. */
  function RaftScore(riverSystem: Area): (r: seq<Score>)
    ensures |r| <= 1
    ensures r != [] <==> riverSystem.IsOccupied() && riverSystem.ZoneWithSpecialPower(Raft).Some?
  {
    if riverSystem.ZoneWithSpecialPower(Raft).None? || !riverSystem.IsOccupied() then []
    else [Score(LakeCount(riverSystem), riverSystem.MajorityOccupants(), riverSystem.TileIds())]
  }

  /** A river system the final scoring can score: forRaft needs a lake when an occupied system has a raft. */
  predicate RaftScorable(riverSystem: Area) {
    riverSystem.ZoneWithSpecialPower(Raft).None? || !riverSystem.IsOccupied() || LakeCount(riverSystem) > 0
  }

  /** The scores of the river systems, each its fish then its raft, in order. */
  function RiverSystemScores(riverSystems: seq<Area>): (r: seq<Score>)
    ensures |r| <= 2 * |riverSystems|
  {
    if riverSystems == [] then []
    else RiverSystemScore(riverSystems[0]) + RaftScore(riverSystems[0]) + RiverSystemScores(riverSystems[1..])
  }

  /** withScoredMeadow appends exactly MeadowScore. */
  lemma ScoredMeadowAppends(b: MessageBoard, meadow: Area, cancelledAnimals: set<Animal>)
    ensures Extends(b.messages, b.WithScoredMeadow(meadow, cancelledAnimals).value.messages, MeadowScore(meadow, cancelledAnimals))
    ensures b.WithScoredMeadow(meadow, cancelledAnimals).value.textMaker == b.textMaker
  {
    var after := b.WithScoredMeadow(meadow, cancelledAnimals).value;
    var points := MeadowPoints(Animals(meadow, cancelledAnimals));
    if points <= 0 || !meadow.IsOccupied() {
      ExtendsItself(b.messages);
    } else {
      AppendedScore(b, after, points, meadow.MajorityOccupants(), meadow.TileIds());
    }
  }

  /** withScoredPitTrap appends exactly the MeadowScore of the meadow around the pit trap. */
  lemma ScoredPitTrapAppends(b: MessageBoard, adjacentMeadow: Area, cancelledAnimals: set<Animal>)
    ensures Extends(b.messages, b.WithScoredPitTrap(adjacentMeadow, cancelledAnimals).value.messages, MeadowScore(adjacentMeadow, cancelledAnimals))
    ensures b.WithScoredPitTrap(adjacentMeadow, cancelledAnimals).value.textMaker == b.textMaker
  {
    var after := b.WithScoredPitTrap(adjacentMeadow, cancelledAnimals).value;
    var points := MeadowPoints(Animals(adjacentMeadow, cancelledAnimals));
    if points <= 0 || !adjacentMeadow.IsOccupied() {
      ExtendsItself(b.messages);
    } else {
      AppendedScore(b, after, points, adjacentMeadow.MajorityOccupants(), adjacentMeadow.TileIds());
    }
  }

  /** withScoredRiverSystem appends exactly RiverSystemScore. */
  lemma ScoredRiverSystemAppends(b: MessageBoard, riverSystem: Area)
    ensures Extends(b.messages, b.WithScoredRiverSystem(riverSystem).value.messages, RiverSystemScore(riverSystem))
    ensures b.WithScoredRiverSystem(riverSystem).value.textMaker == b.textMaker
  {
    var after := b.WithScoredRiverSystem(riverSystem).value;
    if !riverSystem.IsOccupied() || RiverSystemFishCount(riverSystem) == 0 {
      ExtendsItself(b.messages);
    } else {
      AppendedScore(b, after, RiverSystemFishCount(riverSystem), riverSystem.MajorityOccupants(), riverSystem.TileIds());
    }
  }

  /** withScoredRaft, on a system with a raft, fails exactly when it is occupied without lake, and otherwise appends RaftScore. */
  lemma ScoredRaftAppends(b: MessageBoard, riverSystem: Area)
    requires riverSystem.ZoneWithSpecialPower(Raft).Some?
    ensures b.WithScoredRaft(riverSystem).Success? <==> RaftScorable(riverSystem)
    ensures b.WithScoredRaft(riverSystem).Success? ==>
      && Extends(b.messages, b.WithScoredRaft(riverSystem).value.messages, RaftScore(riverSystem))
      && b.WithScoredRaft(riverSystem).value.textMaker == b.textMaker
  {
    var r := b.WithScoredRaft(riverSystem);
    if r.Success? {
      if !riverSystem.IsOccupied() {
        ExtendsItself(b.messages);
      } else {
        AppendedScore(b, r.value, LakeCount(riverSystem), riverSystem.MajorityOccupants(), riverSystem.TileIds());
      }
    }
  }
}
