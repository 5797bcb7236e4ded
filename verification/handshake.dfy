/**
 * The opening handshake of section 4.2 of RFC 6455: recognising an upgrade request,
 * extracting the Sec-WebSocket-Key header value with the pattern
 * `Sec-WebSocket-Key:\s*(.*?)\r\n`, and writing the 101 response whose
 * Sec-WebSocket-Accept value is base64(SHA-1(key + GUID)) (section 4.2.2 of RFC 6455).
 * SHA-1 and Base64 are library calls; they are parameters of the model.
 */
module UpgradeHandshake {
  import opened Wrappers
  import opened Bytes
  import opened JavaStrings

  const GUID: string := "258EAFA5-E914-47DA-95CA-C5AB0DC85B11"
  const KeyHeader: string := "Sec-WebSocket-Key:"
  const CRLF: string := "\r\n"

  predicate StartsWith(s: string, prefix: string)
  {
    |prefix| <= |s| && s[..|prefix|] == prefix
  }

  /** `part` occurs in `s` at index i. */
  predicate OccursAt(s: string, part: string, i: nat)
  {
    i + |part| <= |s| && s[i..i + |part|] == part
  }

  /** String.indexOf: the first index at or after `from` where `part` occurs. */
  function IndexOf(s: string, part: string, from: nat): (r: Option<nat>)
    decreases |s| - from
    ensures r.Some? ==> (from <= r.value && OccursAt(s, part, r.value)
      && forall i :: from <= i < r.value ==> !OccursAt(s, part, i))
    ensures r.None? ==> forall i :: from <= i ==> !OccursAt(s, part, i)
  {
    if from + |part| > |s| then None
    else if OccursAt(s, part, from) then Some(from)
    else IndexOf(s, part, from + 1)
  }

  /** String.contains, as a search. */
  function Contains(s: string, part: string): (r: bool)
    ensures r <==> exists i :: OccursAt(s, part, i)
  {
    IndexOf(s, part, 0).Some?
  }

  /** isUpgradeRequest: starts with "GET /" and carries the four header strings somewhere. */
  function IsUpgradeRequest(request: string): (r: bool)
    ensures r <==> (StartsWith(request, "GET /")
      && (exists i :: OccursAt(request, "HTTP/1.1", i))
      && (exists i :: OccursAt(request, "Upgrade: websocket", i))
      && (exists i :: OccursAt(request, "Connection: Upgrade", i))
      && (exists i :: OccursAt(request, "Sec-WebSocket-Key: ", i)))
  {
    && StartsWith(request, "GET /")
    && Contains(request, "HTTP/1.1")
    && Contains(request, "Upgrade: websocket")
    && Contains(request, "Connection: Upgrade")
    && Contains(request, "Sec-WebSocket-Key: ")
  }

  // ---- the key pattern ----

  /** `\s`: space, tab, line feed, vertical tab, form feed, carriage return. */
  predicate IsSpace(c: char)
  {
    c in {' ', '\t', '\n', '\U{000B}', '\U{000C}', '\r'}
  }

  /** The characters `.` does not match. */
  predicate IsLineTerminator(c: char)
  {
    c in {'\n', '\r', '\U{0085}', '\U{2028}', '\U{2029}'}
  }

  /**
   * One way the pattern matches at index i: the header name, `w` whitespace characters,
   * the group `key` (no line terminator), then CRLF.
   */
  predicate MatchesAt(s: string, i: nat, w: nat, key: string)
  {
    var j := i + |KeyHeader| + w;
    && j + |key| + |CRLF| <= |s|
    && s[i..i + |KeyHeader|] == KeyHeader
    && AllSpace(s, i + |KeyHeader|, j)
    && s[j..j + |key|] == key
    && NoLineTerminator(key)
    && s[j + |key|..j + |key| + |CRLF|] == CRLF
  }

  predicate AllSpace(s: string, from: nat, to: nat)
  {
    forall k :: from <= k < to && k < |s| ==> IsSpace(s[k])
  }

  predicate NoLineTerminator(key: string)
  {
    forall c :: c in key ==> !IsLineTerminator(c)
  }

  /** The number of whitespace characters from index j on. */
  function SpaceRun(s: string, j: nat): (n: nat)
    requires j <= |s|
    decreases |s| - j
    ensures j + n <= |s| && AllSpace(s, j, j + n)
    ensures j + n < |s| ==> !IsSpace(s[j + n])
  {
    if j < |s| && IsSpace(s[j]) then 1 + SpaceRun(s, j + 1) else 0
  }

  /** The first index at or after j holding a line terminator, or |s|. */
  function LineEnd(s: string, j: nat): (k: nat)
    requires j <= |s|
    decreases |s| - j
    ensures j <= k <= |s| && (forall m :: j <= m < k ==> !IsLineTerminator(s[m]))
    ensures k < |s| ==> IsLineTerminator(s[k])
  {
    if j < |s| && !IsLineTerminator(s[j]) then LineEnd(s, j + 1) else j
  }

  /** The lazy group from index j: the characters up to the first line terminator, if CRLF starts there. */
  function GroupAt(s: string, j: nat): (r: Option<string>)
    requires j <= |s|
  {
    var k := LineEnd(s, j);
    if k + |CRLF| <= |s| && s[k..k + |CRLF|] == CRLF then Some(s[j..k]) else None
  }

  /** Greedy `\s*` with backtracking: try w whitespace characters, then fewer. */
  function MatchWithSpace(s: string, i: nat, w: nat): (r: Option<string>)
    requires i + |KeyHeader| + w <= |s|
  {
    var g := GroupAt(s, i + |KeyHeader| + w);
    if g.Some? then g
    else if w == 0 then None
    else MatchWithSpace(s, i, w - 1)
  }

  /** The match starting at index i, if any. */
  function MatchAt(s: string, i: nat): (r: Option<string>)
  {
    if i + |KeyHeader| <= |s| && s[i..i + |KeyHeader|] == KeyHeader then
      MatchWithSpace(s, i, SpaceRun(s, i + |KeyHeader|))
    else None
  }

  /** Matcher.find from index i: the leftmost match, as group(1). */
  function Find(s: string, i: nat): (r: Option<string>)
    decreases |s| - i
  {
    if i > |s| then None
    else
      var m := MatchAt(s, i);
      if m.Some? then m else Find(s, i + 1)
  }

  /** What group(1) returns: the Sec-WebSocket-Key value. */
  function ExtractKey(content: string): Option<string>
  {
    Find(content, 0)
  }

  /** A group found at j is a valid continuation of the pattern there, and it is the only one. */
  lemma GroupAtSound(s: string, j: nat, key: string)
    requires j <= |s|
    ensures GroupAt(s, j) == Some(key) ==>
      j + |key| + |CRLF| <= |s| && s[j..j + |key|] == key
      && NoLineTerminator(key) && s[j + |key|..j + |key| + |CRLF|] == CRLF
    ensures (j + |key| + |CRLF| <= |s| && s[j..j + |key|] == key
      && NoLineTerminator(key) && s[j + |key|..j + |key| + |CRLF|] == CRLF)
      ==> GroupAt(s, j) == Some(key)
  {
    var k := LineEnd(s, j);
    if j + |key| + |CRLF| <= |s| && s[j..j + |key|] == key
      && NoLineTerminator(key) && s[j + |key|..j + |key| + |CRLF|] == CRLF
    {
      forall m | j <= m < j + |key| ensures !IsLineTerminator(s[m]) {
        assert s[m] == key[m - j];
      }
      assert s[j + |key|] == '\r';
      assert k == j + |key|;
    }
  }

  /**
   * The match at index i with w whitespace characters is the one the greedy `\s*` keeps:
   * there is no match at i with more whitespace.
   */
  ghost predicate GreedyAt(s: string, i: nat, w: nat, key: string)
  {
    && MatchesAt(s, i, w, key)
    && forall v: nat, other :: w < v ==> !MatchesAt(s, i, v, other)
  }

  /** No match of the pattern starts before index i. */
  ghost predicate NoMatchBefore(s: string, i: nat)
  {
    forall j: nat, w: nat, key :: j < i ==> !MatchesAt(s, j, w, key)
  }

  /** No match of the pattern starts at an index from lo up to, but not including, hi. */
  ghost predicate NoMatchBetween(s: string, lo: nat, hi: nat)
  {
    forall j: nat, w: nat, key :: lo <= j < hi ==> !MatchesAt(s, j, w, key)
  }

  /** No match at i has more than lo and at most hi whitespace characters. */
  ghost predicate NoMatchWithSpace(s: string, i: nat, lo: nat, hi: nat)
  {
    forall u: nat, key :: lo < u <= hi ==> !MatchesAt(s, i, u, key)
  }

  /** Without a group at j, no key continues the pattern there. */
  lemma NoGroupNoMatch(s: string, i: nat, w: nat)
    requires i + |KeyHeader| + w <= |s| && GroupAt(s, i + |KeyHeader| + w).None?
    ensures forall key :: !MatchesAt(s, i, w, key)
  {
    forall key ensures !MatchesAt(s, i, w, key) {
      GroupAtSound(s, i + |KeyHeader| + w, key);
    }
  }

  /**
   * A key found with at most w whitespace characters is a match of the pattern, with v
   * whitespace characters: the most, up to w, that any match has.
   */
  lemma {:induction false} MatchWithSpaceFound(s: string, i: nat, w: nat) returns (v: nat)
    requires i + |KeyHeader| + w <= |s|
    requires s[i..i + |KeyHeader|] == KeyHeader
    requires AllSpace(s, i + |KeyHeader|, i + |KeyHeader| + w)
    ensures MatchWithSpace(s, i, w).Some? ==>
      v <= w && MatchesAt(s, i, v, MatchWithSpace(s, i, w).value) && NoMatchWithSpace(s, i, v, w)
  {
    var j := i + |KeyHeader| + w;
    var g := GroupAt(s, j);
    v := w;
    if g.Some? {
      GroupAtSound(s, j, g.value);
      assert MatchesAt(s, i, w, g.value);
    } else if w > 0 {
      NoGroupNoMatch(s, i, w);
      v := MatchWithSpaceFound(s, i, w - 1);
      assert MatchWithSpace(s, i, w) == MatchWithSpace(s, i, w - 1);
      if MatchWithSpace(s, i, w).Some? {
        NoMatchWithOneMore(s, i, v, w);
      }
    }
  }

  /** A range without match extends by one whitespace count that has no match either. */
  lemma NoMatchWithOneMore(s: string, i: nat, v: nat, w: nat)
    requires 0 < w && NoMatchWithSpace(s, i, v, w - 1) && forall key :: !MatchesAt(s, i, w, key)
    ensures NoMatchWithSpace(s, i, v, w)
  {
    forall u: nat, key | v < u <= w ensures !MatchesAt(s, i, u, key) {
      if u < w {
        assert u <= w - 1;
      }
    }
  }

  /** When no key is found with at most w whitespace characters, the pattern has no match with that many. */
  lemma {:induction false} MatchWithSpaceMissing(s: string, i: nat, w: nat)
    requires i + |KeyHeader| + w <= |s|
    requires s[i..i + |KeyHeader|] == KeyHeader
    requires AllSpace(s, i + |KeyHeader|, i + |KeyHeader| + w)
    ensures MatchWithSpace(s, i, w).None? ==> forall v: nat, key :: v <= w ==> !MatchesAt(s, i, v, key)
  {
    var j := i + |KeyHeader| + w;
    if GroupAt(s, j).None? {
      NoGroupNoMatch(s, i, w);
      if w > 0 {
        MatchWithSpaceMissing(s, i, w - 1);
        assert MatchWithSpace(s, i, w) == MatchWithSpace(s, i, w - 1);
        if MatchWithSpace(s, i, w).None? {
          forall v: nat, key | v <= w ensures !MatchesAt(s, i, v, key) {
            if v < w {
              assert v <= w - 1;
            }
          }
        }
      }
    }
  }

  /** No match has more whitespace than the run that follows the header name. */
  lemma NoMatchPastRun(s: string, i: nat)
    requires i + |KeyHeader| <= |s|
    ensures forall w: nat, key :: w > SpaceRun(s, i + |KeyHeader|) ==> !MatchesAt(s, i, w, key)
  {
    var run := SpaceRun(s, i + |KeyHeader|);
    forall w: nat, key | w > run ensures !MatchesAt(s, i, w, key) {
      if MatchesAt(s, i, w, key) {
        assert false;
      }
    }
  }

  /** The match at i, when there is one, is the greedy one; otherwise nothing matches at i. */
  lemma MatchAtSound(s: string, i: nat)
    ensures MatchAt(s, i).Some? ==> exists w: nat :: GreedyAt(s, i, w, MatchAt(s, i).value)
    ensures MatchAt(s, i).None? ==> forall w: nat, key :: !MatchesAt(s, i, w, key)
  {
    if i + |KeyHeader| <= |s| && s[i..i + |KeyHeader|] == KeyHeader {
      var run := SpaceRun(s, i + |KeyHeader|);
      var v := MatchWithSpaceFound(s, i, run);
      MatchWithSpaceMissing(s, i, run);
      NoMatchPastRun(s, i);
      if MatchAt(s, i).Some? {
        assert GreedyAt(s, i, v, MatchAt(s, i).value);
      }
    }
  }

  /** Matcher.find from i returns the greedy match at the first index from i where the pattern matches. */
  lemma {:induction false} FindSound(s: string, i: nat)
    decreases |s| - i
    ensures Find(s, i).Some? ==>
      exists j: nat, w: nat :: i <= j && GreedyAt(s, j, w, Find(s, i).value) && NoMatchBetween(s, i, j)
    ensures Find(s, i).None? ==> forall j: nat, w: nat, key :: i <= j ==> !MatchesAt(s, j, w, key)
  {
    if i <= |s| {
      MatchAtSound(s, i);
      if MatchAt(s, i).None? {
        FindSound(s, i + 1);
        assert Find(s, i) == Find(s, i + 1);
        if Find(s, i).None? {
          forall j: nat, w: nat, key | i <= j ensures !MatchesAt(s, j, w, key) {
            if j == i {
              assert !MatchesAt(s, i, w, key);
            } else {
              assert i + 1 <= j;
            }
          }
        } else {
          var key := Find(s, i).value;
          var j: nat, w: nat :| i + 1 <= j && GreedyAt(s, j, w, key) && NoMatchBetween(s, i + 1, j);
          forall m: nat, v: nat, other | i <= m < j ensures !MatchesAt(s, m, v, other) {
            if m == i {
              assert !MatchesAt(s, i, v, other);
            } else {
              assert i + 1 <= m;
            }
          }
          assert NoMatchBetween(s, i, j);
        }
      } else {
        var key := MatchAt(s, i).value;
        var w: nat :| GreedyAt(s, i, w, key);
        assert Find(s, i) == Some(key);
        assert NoMatchBetween(s, i, i);
      }
    }
  }

  /**
   * The key pattern finds a key exactly when the request holds the header name, optional
   * whitespace, a run without line terminators and CRLF. The key found belongs to the
   * leftmost such match, with the longest whitespace run that still lets it match.
   */
  lemma ExtractKeyMeaning(content: string)
    ensures ExtractKey(content).Some? ==> exists i: nat, w: nat ::
      GreedyAt(content, i, w, ExtractKey(content).value) && NoMatchBefore(content, i)
    ensures ExtractKey(content).None? <==> forall i: nat, w: nat, key :: !MatchesAt(content, i, w, key)
  {
    FindSound(content, 0);
    if ExtractKey(content).Some? {
      var key := ExtractKey(content).value;
      var i: nat, w: nat :| GreedyAt(content, i, w, key) && NoMatchBetween(content, 0, i);
      assert NoMatchBefore(content, i);
    }
  }

  /**
   * The lazy group is forced: a match's key is everything from the end of the whitespace
   * up to the first line terminator, which is the CR of the CRLF.
   */
  lemma MatchedKeyRunsToLineEnd(s: string, i: nat, w: nat, key: string)
    requires MatchesAt(s, i, w, key)
    ensures var j := i + |KeyHeader| + w;
      && key == s[j..LineEnd(s, j)]
      && s[LineEnd(s, j)..LineEnd(s, j) + |CRLF|] == CRLF
  {
    GroupAtSound(s, i + |KeyHeader| + w, key);
  }

  // ---- the response ----

  /** encodeSha1AndBase64: the base64 text of the SHA-1 digest of the key's bytes followed by the GUID. */
  function AcceptValue(key: string, sha1: string -> seq<Byte>, base64: seq<Byte> -> string): string
  {
    base64(sha1(key + GUID))
  }

  datatype HandshakeError = KeyHeaderNotFound   // IllegalArgumentException

  /** generateResponse: the 101 response for the request, or an error when the key header is missing. */
  function GenerateResponse(content: string, sha1: string -> seq<Byte>, base64: seq<Byte> -> string)
    : (r: Result<string, HandshakeError>)
    ensures r.Failure? <==> ExtractKey(content).None?
  {
    var key := ExtractKey(content);
    if key.None? then Failure(KeyHeaderNotFound)
    else Success(Join([
      "HTTP/1.1 101 Switching Protocols",
      "Upgrade: websocket",
      "Connection: Upgrade",
      "Sec-WebSocket-Accept: " + AcceptValue(key.value, sha1, base64),
      CRLF], CRLF))
  }

  /**
   * The response is the status line, the Upgrade and Connection headers and the
   * Sec-WebSocket-Accept header, each ended by CRLF, then an empty line.
   */
  lemma ResponseText(content: string, sha1: string -> seq<Byte>, base64: seq<Byte> -> string)
    requires ExtractKey(content).Some?
    ensures GenerateResponse(content, sha1, base64) == Success(
      "HTTP/1.1 101 Switching Protocols" + "\r\n" + "Upgrade: websocket" + "\r\n" + "Connection: Upgrade" + "\r\n"
      + "Sec-WebSocket-Accept: " + base64(sha1(ExtractKey(content).value + GUID)) + "\r\n" + "\r\n")
  {
    var v := AcceptValue(ExtractKey(content).value, sha1, base64);
    var parts := ["HTTP/1.1 101 Switching Protocols", "Upgrade: websocket", "Connection: Upgrade",
      "Sec-WebSocket-Accept: " + v, CRLF];
    assert GenerateResponse(content, sha1, base64) == Success(Join(parts, CRLF));
    JoinFive(parts[0], parts[1], parts[2], parts[3], parts[4], CRLF);
    var head := parts[0] + CRLF + parts[1] + CRLF + parts[2] + CRLF;
    assert head + parts[3] == head + "Sec-WebSocket-Accept: " + v;
  }

  /** Five parts joined by a separator, written out. */
  lemma JoinFive(a: string, b: string, c: string, d: string, e: string, sep: string)
    ensures Join([a, b, c, d, e], sep) == a + sep + b + sep + c + sep + d + sep + e
  {
    var parts := [a, b, c, d, e];
    assert parts[1..] == [b, c, d, e] && parts[2..] == [c, d, e];
    assert parts[3..] == [d, e] && parts[4..] == [e];
    assert Join(parts[3..], sep) == d + sep + e;
    assert Join(parts[2..], sep) == c + sep + (d + sep + e);
    assert Join(parts[1..], sep) == b + sep + (c + sep + (d + sep + e));
    SeqAssoc5(a + sep, b + sep, c + sep, d + sep, e);
  }

  lemma SeqAssoc5<T>(a: seq<T>, b: seq<T>, c: seq<T>, d: seq<T>, e: seq<T>)
    ensures a + (b + (c + (d + e))) == a + b + c + d + e
  {
  }
}
