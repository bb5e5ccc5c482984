/**
 * The parts of java.lang.String that the server relies on:
 * `startsWith` and `split` with a one-character separator.
 */
module JavaText {
  import opened Wrappers

  /** `s.startsWith(p)`. */
  predicate StartsWith(s: string, p: string) {
    p <= s
  }

  /** Every character of `s` is `c`. */
  predicate AllAre(s: string, c: char) {
    forall i :: 0 <= i < |s| ==> s[i] == c
  }

  /**
   * The longest prefix of `s` that does not contain `c`: what is left of `s`
   * when everything from the first `c` on is cut away.
   */
  function PrefixBefore(s: string, c: char): (r: string)
    ensures r <= s
    ensures c !in r
    ensures |r| < |s| ==> s[|r|] == c
  {
    if s == [] || s[0] == c then [] else [s[0]] + PrefixBefore(s[1..], c)
  }

  /**
   * Every piece of `s` between occurrences of `sep`, empty pieces included:
   * a string with k separators has k + 1 pieces.
   */
  function Pieces(s: string, sep: char): (r: seq<string>)
    ensures |r| >= 1
    ensures forall k :: 0 <= k < |r| ==> sep !in r[k]
  {
    if s == [] then [[]]
    else
      var rest := Pieces(s[1..], sep);
      if s[0] == sep then [[]] + rest else [[s[0]] + rest[0]] + rest[1..]
  }

  /** Removes the empty pieces at the end of `ps`, and only those. */
  function DropTrailingEmpty(ps: seq<string>): (r: seq<string>)
    ensures |r| <= |ps| && r == ps[..|r|]
    ensures forall k :: |r| <= k < |ps| ==> ps[k] == []
    ensures r != [] ==> r[|r| - 1] != []
  {
    if ps != [] && ps[|ps| - 1] == [] then DropTrailingEmpty(ps[..|ps| - 1]) else ps
  }

  /**
   * `s.split(sep)` for a separator that is a single literal character and no
   * limit: an empty string splits into itself; otherwise the pieces between
   * separators with the trailing empty ones removed.
   */
  function Split(s: string, sep: char): (r: seq<string>)
    ensures forall k :: 0 <= k < |r| ==> sep !in r[k]
    ensures s != [] && r != [] ==> r[|r| - 1] != []
  {
    if s == [] then [s] else DropTrailingEmpty(Pieces(s, sep))
  }

  lemma {:induction false} FirstPiece(s: string, sep: char)
    ensures Pieces(s, sep)[0] == PrefixBefore(s, sep)
  {
    if s != [] && s[0] != sep {
      FirstPiece(s[1..], sep);
    }
  }

  lemma {:induction false} PiecesAllEmpty(s: string, sep: char)
    ensures (forall k :: 0 <= k < |Pieces(s, sep)| ==> Pieces(s, sep)[k] == []) <==> AllAre(s, sep)
  {
    if s != [] {
      var rest := Pieces(s[1..], sep);
      PiecesAllEmpty(s[1..], sep);
      if s[0] == sep {
        assert Pieces(s, sep) == [[]] + rest;
        if AllAre(s[1..], sep) {
          assert AllAre(s, sep) by {
            forall i | 0 <= i < |s| ensures s[i] == sep {
              if i > 0 { assert s[i] == s[1..][i - 1]; }
            }
          }
        } else {
          var k :| 0 <= k < |rest| && rest[k] != [];
          assert Pieces(s, sep)[k + 1] != [];
          assert !AllAre(s, sep) by {
            var i :| 0 <= i < |s[1..]| && s[1..][i] != sep;
            assert s[i + 1] != sep;
          }
        }
      } else {
        assert Pieces(s, sep)[0] != [];
      }
    }
  }

  /**
   * `s.split(sep)[0]`: `None` models the ArrayIndexOutOfBoundsException that
   * indexing an empty result throws. That happens exactly when `s` is a
   * non-empty run of separators; otherwise the first piece is the prefix of
   * `s` before the first separator.
   */
  function FirstOfSplit(s: string, sep: char): (r: Option<string>)
    ensures r.None? <==> s != [] && AllAre(s, sep)
    ensures r.Some? ==> r.value == PrefixBefore(s, sep)
  {
    var parts := Split(s, sep);
    FirstPiece(s, sep);
    PiecesAllEmpty(s, sep);
    if |parts| == 0 then None else Some(parts[0])
  }

  /** A path with a query part: the part before the first `?` is what `split` keeps. */
  lemma {:induction false} FirstOfSplitBeforeSeparator(p: string, q: string, sep: char)
    requires p != [] && sep !in p
    ensures FirstOfSplit(p + [sep] + q, sep) == Some(p)
  {
    var s := p + [sep] + q;
    assert s[0] == p[0] && p[0] != sep;
    PrefixOfJoined(p, q, sep);
  }

  lemma {:induction false} PrefixOfJoined(p: string, q: string, sep: char)
    requires sep !in p
    ensures PrefixBefore(p + [sep] + q, sep) == p
  {
    if p != [] {
      assert (p + [sep] + q)[1..] == p[1..] + [sep] + q;
      PrefixOfJoined(p[1..], q, sep);
    }
  }
}
