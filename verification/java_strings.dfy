/**
 * The two string operations the session protocol is built on: String.join, which writes a
 * list with a separator between consecutive items, and String.split on a one-character
 * separator, which cuts a string at every separator and then drops the empty strings at the
 * end of the result (but keeps those at the start and in the middle).
 */
module JavaStrings {

  /** String.join: the parts with the separator between consecutive ones. */
  function Join(parts: seq<string>, separator: string): string
  {
    if parts == [] then ""
    else if |parts| == 1 then parts[0]
    else parts[0] + separator + Join(parts[1..], separator)
  }

  /**
   * The strings between consecutive separators, the one before the first separator and the
   * one after the last separator included, however empty: one more than there are separators.
   */
  function Pieces(s: string, sep: char): (r: seq<string>)
    ensures |r| >= 1
    ensures forall i :: 0 <= i < |r| ==> sep !in r[i]
    decreases |s|
  {
    if s == [] then [""]
    else
      var rest := Pieces(s[1..], sep);
      if s[0] == sep then [""] + rest
      else [[s[0]] + rest[0]] + rest[1..]
  }

  /** The parts without the empty strings at their end. */
  function DropTrailingEmpty(parts: seq<string>): (r: seq<string>)
    ensures |r| <= |parts| && r == parts[..|r|]
    ensures r == [] || r[|r| - 1] != ""
    ensures forall i :: |r| <= i < |parts| ==> parts[i] == ""
  {
    if parts != [] && parts[|parts| - 1] == "" then DropTrailingEmpty(parts[..|parts| - 1]) else parts
  }

  /**
   * String.split on a one-character pattern: the pieces without the empty ones at the end.
   * A string without separator is its own single piece, and so is the empty string.
   */
  function Split(s: string, sep: char): (r: seq<string>)
    ensures forall i :: 0 <= i < |r| ==> sep !in r[i]
    ensures s != [] ==> r == [] || r[|r| - 1] != ""
    ensures s == [] ==> r == [""]
  {
    if s == [] then [""] else DropTrailingEmpty(Pieces(s, sep))
  }

  /** Joining the pieces with the separator gives back the string they were cut from. */
  lemma {:induction false} JoinPieces(s: string, sep: char)
    ensures Join(Pieces(s, sep), [sep]) == s
    decreases |s|
  {
    if s != [] {
      var rest := Pieces(s[1..], sep);
      JoinPieces(s[1..], sep);
      if s[0] == sep {
        assert ([""] + rest)[1..] == rest;
      } else if |rest| == 1 {
        assert Join(rest, [sep]) == rest[0];
      } else {
        var r := [[s[0]] + rest[0]] + rest[1..];
        assert r[1..] == rest[1..];
        assert Join(rest, [sep]) == rest[0] + [sep] + Join(rest[1..], [sep]);
      }
    }
  }

  /** A separator-free prefix joins the first piece of what follows it. */
  lemma {:induction false} PiecesOfPrefix(p: string, t: string, sep: char)
    requires sep !in p
    ensures Pieces(p + t, sep) == [p + Pieces(t, sep)[0]] + Pieces(t, sep)[1..]
    decreases |p|
  {
    if p == [] {
      var r := Pieces(t, sep);
      assert p + t == t && p + r[0] == r[0] && r == [r[0]] + r[1..];
    } else {
      var s := p + t;
      assert s[0] == p[0] && s[1..] == p[1..] + t;
      PiecesOfPrefix(p[1..], t, sep);
      assert [p[0]] + (p[1..] + Pieces(t, sep)[0]) == p + Pieces(t, sep)[0];
    }
  }

  /** Cutting a join of separator-free parts at the separator gives back the parts. */
  lemma {:induction false} PiecesOfJoin(parts: seq<string>, sep: char)
    requires parts != [] && forall i :: 0 <= i < |parts| ==> sep !in parts[i]
    ensures Pieces(Join(parts, [sep]), sep) == parts
  {
    if |parts| == 1 {
      PiecesOfPrefix(parts[0], "", sep);
      assert parts[0] + "" == parts[0];
    } else {
      var rest := Join(parts[1..], [sep]);
      PiecesOfJoin(parts[1..], sep);
      assert ([sep] + rest)[0] == sep && ([sep] + rest)[1..] == rest;
      assert Pieces([sep] + rest, sep) == [""] + parts[1..];
      assert parts[0] + [sep] + rest == parts[0] + ([sep] + rest);
      PiecesOfPrefix(parts[0], [sep] + rest, sep);
      assert parts[0] + "" == parts[0];
      assert parts == [parts[0]] + parts[1..];
    }
  }

  /**
   * The round trip of a list through join and split: separator-free parts whose last one is
   * not empty come back as they were.
   */
  lemma SplitOfJoin(parts: seq<string>, sep: char)
    requires parts != [] && forall i :: 0 <= i < |parts| ==> sep !in parts[i]
    requires parts[|parts| - 1] != ""
    ensures Split(Join(parts, [sep]), sep) == parts
  {
    PiecesOfJoin(parts, sep);
    if Join(parts, [sep]) == [] {
      assert Pieces([], sep) == [""];
    }
  }

  /** A non-empty string without separator splits into itself alone. */
  lemma SplitWithoutSeparator(s: string, sep: char)
    requires s != [] && sep !in s
    ensures Split(s, sep) == [s]
  {
    SplitOfJoin([s], sep);
  }

  /** A string of separators only has nothing but empty pieces. */
  lemma {:induction false} PiecesOfSeparators(s: string, sep: char)
    requires forall i :: 0 <= i < |s| ==> s[i] == sep
    ensures |Pieces(s, sep)| == |s| + 1 && forall i :: 0 <= i < |s| + 1 ==> Pieces(s, sep)[i] == ""
    decreases |s|
  {
    if s != [] {
      PiecesOfSeparators(s[1..], sep);
    }
  }

  /** A non-empty string of separators only splits into nothing at all. */
  lemma SplitOfSeparators(s: string, sep: char)
    requires s != [] && forall i :: 0 <= i < |s| ==> s[i] == sep
    ensures Split(s, sep) == []
  {
    PiecesOfSeparators(s, sep);
  }
}
