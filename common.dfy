// String-list helpers shared by the builder and its host: joining a list of
// strings with a separator character and splitting a string back into tokens.

module Common {

  /** The separator the builder uses when it sends a list of strings to its host. */
  const ListSeparator: char := '\U{1}'

  /** Joins the elements in order, with `sep` between consecutive elements. */
  function JoinWith(s: seq<string>, sep: char): (r: string)
  {
    if |s| == 0 then ""
    else if |s| == 1 then s[0]
    else s[0] + [sep] + JoinWith(s[1..], sep)
  }

  /** concatenateListOfStrings: join on the list separator. */
  function ConcatenateListOfStrings(s: seq<string>): (r: string)
  {
    JoinWith(s, ListSeparator)
  }

  /** The pieces of `s` between occurrences of `sep`, empty pieces included.
      A string without `sep` is a single piece. */
  function Pieces(s: string, sep: char): (r: seq<string>)
    ensures |r| >= 1
  {
    if s == [] then [""]
    else if s[0] == sep then [""] + Pieces(s[1..], sep)
    else
      var rest := Pieces(s[1..], sep);
      [[s[0]] + rest[0]] + rest[1..]
  }

  /** Tokenising on a single break character with no quote characters:
      the empty string gives no tokens at all, any other string gives its pieces. */
  function Tokens(s: string, sep: char): (r: seq<string>)
  {
    if s == "" then [] else Pieces(s, sep)
  }

  /** separateJoinedStrings: tokenise on the list separator. */
  function SeparateJoinedStrings(s: string): (r: seq<string>)
  {
    Tokens(s, ListSeparator)
  }

  /** No element of `s` contains `sep`. */
  predicate FreeOf(s: seq<string>, sep: char)
  {
    forall i :: 0 <= i < |s| ==> sep !in s[i]
  }

  /** Joining the empty list gives the empty string, joining one element gives
      that element, and the list holding only "" joins to the same string as
      the empty list, which splits back into the empty list. */
  lemma JoinEdgeCases(x: string)
    ensures ConcatenateListOfStrings([]) == ""
    ensures ConcatenateListOfStrings([x]) == x
    ensures ConcatenateListOfStrings([""]) == ConcatenateListOfStrings([])
    ensures SeparateJoinedStrings("") == []
  {
  }

  /** A joined list of n >= 1 separator-free elements holds exactly n - 1 separators. */
  lemma {:induction false} JoinSeparatorCount(s: seq<string>, sep: char)
    requires |s| >= 1 && FreeOf(s, sep)
    ensures multiset(JoinWith(s, sep))[sep] == |s| - 1
  {
    if |s| > 1 {
      JoinSeparatorCount(s[1..], sep);
      assert sep !in s[0];
      assert multiset(s[0])[sep] == 0;
      assert multiset(s[0] + [sep] + JoinWith(s[1..], sep))
          == multiset(s[0]) + multiset([sep]) + multiset(JoinWith(s[1..], sep));
    } else {
      assert sep !in s[0];
    }
  }

  /** A separator-free string is a single piece. */
  lemma {:induction false} PiecesOfFree(x: string, sep: char)
    requires sep !in x
    ensures Pieces(x, sep) == [x]
  {
    if x != [] {
      assert x[0] != sep by { assert x[0] in x; }
      PiecesOfFree(x[1..], sep);
      assert [x[0]] + x[1..] == x;
    }
  }

  /** A separator-free prefix followed by a separator splits off as the first piece. */
  lemma {:induction false} PiecesOfPrefix(x: string, sep: char, rest: string)
    requires sep !in x
    ensures Pieces(x + [sep] + rest, sep) == [x] + Pieces(rest, sep)
  {
    if x == [] {
      assert x + [sep] + rest == [sep] + rest;
      assert ([sep] + rest)[1..] == rest;
    } else {
      PiecesOfPrefix(x[1..], sep, rest);
      assert (x + [sep] + rest)[1..] == x[1..] + [sep] + rest;
      assert [x[0]] + x[1..] == x;
    }
  }

  /** Splitting undoes joining for separator-free lists, with the one exception
      of [""], which joins to the empty string like the empty list does. */
  lemma {:induction false} SplitJoin(s: seq<string>, sep: char)
    requires FreeOf(s, sep) && s != [""]
    ensures Tokens(JoinWith(s, sep), sep) == s
  {
    if |s| == 0 {
    } else if |s| == 1 {
      PiecesOfFree(s[0], sep);
    } else {
      PiecesToJoin(s, sep);
      assert JoinWith(s, sep) != "" by {
        assert sep in JoinWith(s, sep) by {
          assert JoinWith(s, sep)[|s[0]|] == sep;
        }
      }
    }
  }

  /** Helper for SplitJoin: the pieces of a join of at least one separator-free element. */
  lemma {:induction false} PiecesToJoin(s: seq<string>, sep: char)
    requires |s| >= 1 && FreeOf(s, sep)
    ensures Pieces(JoinWith(s, sep), sep) == s
  {
    if |s| == 1 {
      PiecesOfFree(s[0], sep);
    } else {
      PiecesToJoin(s[1..], sep);
      PiecesOfPrefix(s[0], sep, JoinWith(s[1..], sep));
    }
  }

  /** Joining the pieces of any string gives the string back. */
  lemma {:induction false} JoinPieces(s: string, sep: char)
    ensures JoinWith(Pieces(s, sep), sep) == s
  {
    if s == [] {
    } else if s[0] == sep {
      JoinPieces(s[1..], sep);
      var rest := Pieces(s[1..], sep);
      assert ([""] + rest)[1..] == rest;
      assert s == [sep] + s[1..];
    } else {
      JoinPieces(s[1..], sep);
      var rest := Pieces(s[1..], sep);
      var p := [[s[0]] + rest[0]] + rest[1..];
      if |rest| == 1 {
        assert s == [s[0]] + s[1..];
      } else {
        assert p[1..] == rest[1..];
        assert JoinWith(rest, sep) == rest[0] + [sep] + JoinWith(rest[1..], sep);
        assert s == [s[0]] + s[1..];
      }
    }
  }

  /** Joining what separateJoinedStrings produces gives back the original string. */
  lemma JoinSplit(s: string)
    ensures ConcatenateListOfStrings(SeparateJoinedStrings(s)) == s
  {
    if s != "" {
      JoinPieces(s, ListSeparator);
    }
  }
}
