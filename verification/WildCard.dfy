/** The logger's glob matcher (common/source/easylogging.cc) against the declarative meaning of a pattern. */
module WildCard {

  /** A string as C sees it: without the terminating character inside. */
  predicate NulFree(s: string) {
    forall i | 0 <= i < |s| :: s[i] != '\0'
  }

  /** What a pointer into a C string reads: the terminating character at the end. */
  function CharAt(s: string, i: nat): char {
    if i < |s| then s[i] else '\0'
  }

  /** What one pattern character stands for. */
  predicate Stands(c: char, piece: string) {
    if c == '?' then |piece| == 1 else if c == '*' then true else piece == [c]
  }

  function Concat(pieces: seq<string>): string {
    if pieces == [] then "" else pieces[0] + Concat(pieces[1..])
  }

  /** `pieces` splits the string, one piece for each pattern character. */
  ghost predicate Splits(str: string, pattern: string, pieces: seq<string>) {
    && |pieces| == |pattern|
    && Concat(pieces) == str
    && forall i | 0 <= i < |pattern| :: Stands(pattern[i], pieces[i])
  }

  /** A string matches when it can be split so. */
  ghost predicate Matches(str: string, pattern: string) {
    exists pieces :: Splits(str, pattern, pieces)
  }

  lemma MatchEmpty(str: string)
    ensures Matches(str, "") <==> str == ""
  {
    if str == "" {
      assert Splits("", "", []);
    }
  }

  /** A first piece in front of a match of the rest. */
  lemma Prepend(piece: string, rest: string, pattern: string)
    requires pattern != "" && Stands(pattern[0], piece) && Matches(rest, pattern[1..])
    ensures Matches(piece + rest, pattern)
  {
    var pieces :| Splits(rest, pattern[1..], pieces);
    var all := [piece] + pieces;
    assert all[1..] == pieces;
    assert Splits(piece + rest, pattern, all);
  }

  /** A match begins with a first piece. */
  lemma FirstPiece(str: string, pattern: string) returns (piece: string)
    requires pattern != "" && Matches(str, pattern)
    ensures |piece| <= |str| && piece == str[..|piece|]
    ensures Stands(pattern[0], piece) && Matches(str[|piece|..], pattern[1..])
  {
    var pieces :| Splits(str, pattern, pieces);
    piece := pieces[0];
    assert str[|piece|..] == Concat(pieces[1..]);
    assert Splits(str[|piece|..], pattern[1..], pieces[1..]);
  }

  /** A pattern character other than a star takes exactly one character. */
  lemma MatchOne(str: string, pattern: string)
    requires pattern != "" && pattern[0] != '*'
    ensures Matches(str, pattern)
       <==> str != "" && (pattern[0] == '?' || str[0] == pattern[0]) && Matches(str[1..], pattern[1..])
  {
    if Matches(str, pattern) {
      var piece := FirstPiece(str, pattern);
    }
    if str != "" && (pattern[0] == '?' || str[0] == pattern[0]) && Matches(str[1..], pattern[1..]) {
      Prepend([str[0]], str[1..], pattern);
      assert [str[0]] + str[1..] == str;
    }
  }

  /** A star takes nothing, or one character and then again whatever a star takes. */
  lemma MatchStar(str: string, pattern: string)
    requires pattern != "" && pattern[0] == '*'
    ensures Matches(str, pattern) <==> Matches(str, pattern[1..]) || (str != "" && Matches(str[1..], pattern))
  {
    if Matches(str, pattern) {
      var piece := FirstPiece(str, pattern);
      if piece == "" {
        assert str[0..] == str;
      } else {
        Prepend(piece[1..], str[|piece|..], pattern);
        assert piece[1..] + str[|piece|..] == str[1..];
      }
    }
    if Matches(str, pattern[1..]) {
      Prepend("", str, pattern);
      assert "" + str == str;
    }
    if str != "" && Matches(str[1..], pattern) {
      var piece := FirstPiece(str[1..], pattern);
      Prepend([str[0]] + piece, str[1..][|piece|..], pattern);
      assert [str[0]] + piece + str[1..][|piece|..] == str;
    }
  }

  /** `wildCardMatch`: terminates, and answers whether the string matches. */
  method WildCardMatch(str: string, pattern: string) returns (r: bool)
    requires NulFree(str) && NulFree(pattern)
    ensures r <==> Matches(str, pattern)
    decreases |pattern|, |str|
  {
    var i, j := 0, 0;
    assert str[0..] == str && pattern[0..] == pattern;
    while CharAt(pattern, j) != '\0'
      invariant i <= |str| && j <= |pattern|
      invariant Matches(str, pattern) <==> Matches(str[i..], pattern[j..])
      decreases |pattern| - j
    {
      assert pattern[j..][1..] == pattern[j + 1..];
      assert i < |str| ==> str[i..][1..] == str[i + 1..];
      if pattern[j] == '*' {
        MatchStar(str[i..], pattern[j..]);
        var skipped := WildCardMatch(str[i..], pattern[j + 1..]);
        if skipped {
          return true;
        }
        if CharAt(str, i) != '\0' {
          var taken := WildCardMatch(str[i + 1..], pattern[j..]);
          if taken {
            return true;
          }
        }
        return false;
      }
      MatchOne(str[i..], pattern[j..]);
      if pattern[j] == '?' {
        if CharAt(str, i) == '\0' {
          return false;
        }
      } else if CharAt(str, i) != pattern[j] {
        return false;
      }
      i, j := i + 1, j + 1;
    }
    MatchEmpty(str[i..]);
    assert pattern[j..] == "";
    r := CharAt(str, i) == '\0';
  }
}
