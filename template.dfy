/**
 * `String.replace(target, replacement)` for a non-empty target: every
 * occurrence of the target, found left to right without overlap, is replaced.
 * The server uses it to put the current time into the `{time}` slots of
 * the `/classic.html` page.
 */
module Template {

  /** `pat` occurs in `s` at index `i`. */
  predicate OccursAt(pat: string, s: string, i: int) {
    0 <= i <= |s| - |pat| && s[i..i + |pat|] == pat
  }

  /** `pat` occurs somewhere in `s`. */
  predicate Occurs(pat: string, s: string) {
    exists i | 0 <= i <= |s| :: OccursAt(pat, s, i)
  }

  /**
   * No proper suffix of `pat` can begin an occurrence of `pat`: its first
   * character appears nowhere else in it (true of `{time}`). Such a pattern's
   * occurrences can neither overlap nor straddle a boundary it sits next to.
   */
  predicate LeadUnique(pat: string) {
    pat != [] && forall k :: 0 < k < |pat| ==> pat[k] != pat[0]
  }

  function ReplaceAll(s: string, pat: string, rep: string): string
    requires pat != []
    decreases |s|
  {
    if s == [] then []
    else if pat <= s then rep + ReplaceAll(s[|pat|..], pat, rep)
    else [s[0]] + ReplaceAll(s[1..], pat, rep)
  }

  /** `pieces` glued together with `sep` between consecutive pieces. */
  function Join(pieces: seq<string>, sep: string): string
    requires |pieces| >= 1
  {
    if |pieces| == 1 then pieces[0] else pieces[0] + sep + Join(pieces[1..], sep)
  }

  /** A string without the pattern comes back unchanged. */
  lemma {:induction false} ReplaceAbsent(s: string, pat: string, rep: string)
    requires pat != [] && !Occurs(pat, s)
    ensures ReplaceAll(s, pat, rep) == s
    decreases |s|
  {
    if s != [] {
      assert !(pat <= s) by {
        if pat <= s { assert OccursAt(pat, s, 0); }
      }
      NoOccurrenceInTail(s, pat);
      ReplaceAbsent(s[1..], pat, rep);
    }
  }

  lemma NoOccurrenceInTail(s: string, pat: string)
    requires s != [] && !Occurs(pat, s)
    ensures !Occurs(pat, s[1..])
  {
    if Occurs(pat, s[1..]) {
      var t := s[1..];
      var i :| 0 <= i <= |t| && OccursAt(pat, t, i);
      assert s[i + 1..i + 1 + |pat|] == t[i..i + |pat|];
      assert OccursAt(pat, s, i + 1);
    }
  }

  /** A pattern-free piece followed by the pattern: the piece is kept, the pattern replaced. */
  lemma {:induction false} ReplaceAfterPiece(p: string, pat: string, rep: string, t: string)
    requires LeadUnique(pat) && !Occurs(pat, p)
    ensures ReplaceAll(p + pat + t, pat, rep) == p + rep + ReplaceAll(t, pat, rep)
    decreases |p|
  {
    var s := p + pat + t;
    if p == [] {
      assert s == pat + t;
      assert s[|pat|..] == t;
    } else {
      PieceNotPattern(p, pat, t);
      NoOccurrenceInTail(p, pat);
      assert s[1..] == p[1..] + pat + t;
      ReplaceAfterPiece(p[1..], pat, rep, t);
      assert [p[0]] + p[1..] == p;
    }
  }

  /** A non-empty pattern-free piece followed by the pattern does not start with it. */
  lemma PieceNotPattern(p: string, pat: string, t: string)
    requires LeadUnique(pat) && p != [] && !Occurs(pat, p)
    ensures !(pat <= p + pat + t)
  {
    var s := p + pat + t;
    if |p| >= |pat| {
      assert !OccursAt(pat, p, 0);
      assert s[..|pat|] == p[..|pat|];
    } else {
      assert s[|p|] == pat[0] != pat[|p|];
    }
  }

  /**
   * Whatever pattern-free pieces the template is made of, the result is the
   * same pieces with the replacement wherever the pattern was: every
   * occurrence is replaced and nothing else changes.
   */
  lemma {:induction false} ReplaceJoin(pieces: seq<string>, pat: string, rep: string)
    requires LeadUnique(pat) && |pieces| >= 1
    requires forall k :: 0 <= k < |pieces| ==> !Occurs(pat, pieces[k])
    ensures ReplaceAll(Join(pieces, pat), pat, rep) == Join(pieces, rep)
  {
    if |pieces| == 1 {
      ReplaceAbsent(pieces[0], pat, rep);
    } else {
      ReplaceJoin(pieces[1..], pat, rep);
      ReplaceAfterPiece(pieces[0], pat, rep, Join(pieces[1..], pat));
      assert pieces[0] + pat + Join(pieces[1..], pat) == Join(pieces, pat);
    }
  }

  /**
   * The pieces of `s` around the occurrences of `pat` that ReplaceAll
   * finds, left to right.
   */
  function Cut(s: string, pat: string): (r: seq<string>)
    requires pat != []
    ensures |r| >= 1
    decreases |s|
  {
    if s == [] then [[]]
    else if pat <= s then [[]] + Cut(s[|pat|..], pat)
    else
      var rest := Cut(s[1..], pat);
      [[s[0]] + rest[0]] + rest[1..]
  }

  /** Rejoining the cut pieces with the pattern gives the template back. */
  lemma {:induction false} CutJoins(s: string, pat: string)
    requires pat != []
    ensures Join(Cut(s, pat), pat) == s
    decreases |s|
  {
    if s == [] {
    } else if pat <= s {
      CutJoins(s[|pat|..], pat);
      JoinAfterEmpty(Cut(s[|pat|..], pat), pat);
      assert s == pat + s[|pat|..];
    } else {
      CutJoins(s[1..], pat);
      JoinExtendFirst(s[0], Cut(s[1..], pat), pat);
      assert s == [s[0]] + s[1..];
    }
  }

  lemma JoinAfterEmpty(ps: seq<string>, sep: string)
    requires |ps| >= 1
    ensures Join([[]] + ps, sep) == sep + Join(ps, sep)
  {
    var qs := [[]] + ps;
    assert qs[1..] == ps;
  }

  lemma JoinExtendFirst(c: char, ps: seq<string>, sep: string)
    requires |ps| >= 1
    ensures Join([[c] + ps[0]] + ps[1..], sep) == [c] + Join(ps, sep)
  {
    var qs := [[c] + ps[0]] + ps[1..];
    assert qs[1..] == ps[1..];
    if |ps| > 1 {
      assert Join(qs, sep) == ([c] + ps[0]) + sep + Join(ps[1..], sep);
      assert Join(ps, sep) == ps[0] + sep + Join(ps[1..], sep);
    }
  }

  /** No cut piece contains the pattern. */
  lemma {:induction false} CutPiecesFree(s: string, pat: string)
    requires pat != []
    ensures forall k :: 0 <= k < |Cut(s, pat)| ==> !Occurs(pat, Cut(s, pat)[k])
    decreases |s|
  {
    if s == [] {
    } else if pat <= s {
      CutPiecesFree(s[|pat|..], pat);
      var rest := Cut(s[|pat|..], pat);
      assert Cut(s, pat) == [[]] + rest;
      assert !Occurs(pat, []);
    } else {
      CutPiecesFree(s[1..], pat);
      CutJoins(s[1..], pat);
      var rest := Cut(s[1..], pat);
      var first := [s[0]] + rest[0];
      assert !Occurs(pat, first) by {
        forall i | 0 <= i <= |first| ensures !OccursAt(pat, first, i) {
          if i == 0 {
            FirstPieceStarts(s[1..], pat);
            assert first <= s;
          } else {
            OccursAfterHead(s[0], rest[0], pat, i);
          }
        }
      }
      forall k | 1 <= k < |Cut(s, pat)| ensures !Occurs(pat, Cut(s, pat)[k]) {
        assert Cut(s, pat)[k] == rest[k];
      }
    }
  }

  /** Past its first character, `[c] + t` holds the pattern exactly where `t` does. */
  lemma OccursAfterHead(c: char, t: string, pat: string, i: int)
    requires 1 <= i
    ensures OccursAt(pat, [c] + t, i) <==> OccursAt(pat, t, i - 1)
  {
    if i - 1 <= |t| - |pat| {
      assert ([c] + t)[i..i + |pat|] == t[i - 1..i - 1 + |pat|];
    }
  }

  /** The first cut piece is a prefix of the template. */
  lemma FirstPieceStarts(s: string, pat: string)
    requires pat != []
    ensures Cut(s, pat)[0] <= s
  {
    CutJoins(s, pat);
    if |Cut(s, pat)| > 1 {
      assert Join(Cut(s, pat), pat) == Cut(s, pat)[0] + (pat + Join(Cut(s, pat)[1..], pat));
    }
  }

  /** For any template: the cut pieces, rejoined with the replacement. */
  lemma ReplaceAllCut(s: string, pat: string, rep: string)
    requires LeadUnique(pat)
    ensures ReplaceAll(s, pat, rep) == Join(Cut(s, pat), rep)
  {
    CutJoins(s, pat);
    CutPiecesFree(s, pat);
    ReplaceJoin(Cut(s, pat), pat, rep);
  }
}
