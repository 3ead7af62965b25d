/**
 * Literal replace-all, as `s.replace(new RegExp(escape(search), 'g'), rep)`
 * behaves when the search text is escaped and the replacement holds no `$`:
 * every non-overlapping occurrence, leftmost first, is replaced, and the
 * count is the length of `s.match(...)`. An empty search matches at every
 * position, before each character and at the end.
 */
module Literal {
  import opened Common

  /** The number of matches and the text after replacing them. */
  datatype Replaced = Replaced(count: nat, text: string)

  /** `t` occurs in `s` at position `i`. */
  predicate Occurs(s: string, t: string, i: int)
  {
    0 <= i && i + |t| <= |s| && s[i..i + |t|] == t
  }

  predicate Contains(s: string, t: string)
  {
    exists i :: 0 <= i <= |s| && Occurs(s, t, i)
  }

  /** Leftmost, non-overlapping replacement of a non-empty `t`. */
  function ReplaceAll(s: string, t: string, rep: string): (r: Replaced)
    requires t != ""
    decreases |s|
  {
    if |s| < |t| then Replaced(0, s)
    else if s[..|t|] == t then
      var rest := ReplaceAll(s[|t|..], t, rep);
      Replaced(rest.count + 1, rep + rest.text)
    else
      var rest := ReplaceAll(s[1..], t, rep);
      Replaced(rest.count, [s[0]] + rest.text)
  }

  /** `rep` before every character and at the end: the empty pattern's replacement. */
  function Interleave(s: string, rep: string): (r: string)
    ensures |r| == |s| + (|s| + 1) * |rep|
  {
    if s == [] then rep else rep + [s[0]] + Interleave(s[1..], rep)
  }

  /** What one literal operation does to `s`. */
  function LiteralReplace(s: string, search: string, rep: string): (r: Replaced)
    ensures search == "" ==> r.count == |s| + 1
    ensures search != "" ==> (r.count == 0 <==> !Contains(s, search))
    ensures r.count == 0 ==> r.text == s
    ensures |r.text| == |s| + r.count * |rep| - r.count * |search|
  {
    if search == "" then Replaced(|s| + 1, Interleave(s, rep))
    else
      CountZero(s, search, rep);
      ReplaceLength(s, search, rep);
      ReplaceAll(s, search, rep)
  }

  /** The text between the occurrences that `ReplaceAll` replaces. */
  function Pieces(s: string, t: string): (r: seq<string>)
    requires t != ""
    ensures |r| >= 1
    decreases |s|
  {
    if |s| < |t| then [s]
    else if s[..|t|] == t then [""] + Pieces(s[|t|..], t)
    else
      var ps := Pieces(s[1..], t);
      [[s[0]] + ps[0]] + ps[1..]
  }

  /** No match means no change, and a match is always counted. */
  lemma {:induction false} CountZero(s: string, t: string, rep: string)
    requires t != ""
    ensures ReplaceAll(s, t, rep).count == 0 <==> !Contains(s, t)
    ensures ReplaceAll(s, t, rep).count == 0 ==> ReplaceAll(s, t, rep).text == s
    decreases |s|
  {
    if |s| < |t| {
      assert forall i :: !Occurs(s, t, i);
    } else if s[..|t|] == t {
      assert Occurs(s, t, 0);
    } else {
      CountZero(s[1..], t, rep);
      ContainsPastFirst(s, t);
      if ReplaceAll(s, t, rep).count == 0 {
        assert [s[0]] + s[1..] == s;
      }
    }
  }

  /** When `t` does not start `s`, it occurs in `s` exactly when it occurs past the first character. */
  lemma ContainsPastFirst(s: string, t: string)
    requires |s| >= 1 && !Occurs(s, t, 0)
    ensures Contains(s, t) <==> Contains(s[1..], t)
  {
    if Contains(s[1..], t) {
      var i: int :| 0 <= i <= |s[1..]| && Occurs(s[1..], t, i);
      assert s[i + 1..i + 1 + |t|] == s[1..][i..i + |t|];
      assert Occurs(s, t, i + 1);
    }
    if Contains(s, t) {
      var i: int :| 0 <= i <= |s| && Occurs(s, t, i);
      assert s[1..][i - 1..i - 1 + |t|] == s[i..i + |t|];
      assert Occurs(s[1..], t, i - 1);
    }
  }

  /** Each match changes the length by `|rep| - |t|`. */
  lemma {:induction false} ReplaceLength(s: string, t: string, rep: string)
    requires t != ""
    ensures var r := ReplaceAll(s, t, rep); |r.text| == |s| + r.count * |rep| - r.count * |t|
    decreases |s|
  {
    if |s| >= |t| {
      if s[..|t|] == t {
        var rest := ReplaceAll(s[|t|..], t, rep);
        ReplaceLength(s[|t|..], t, rep);
        OneMore(rest.count, |rep|, |t|);
      } else {
        ReplaceLength(s[1..], t, rep);
      }
    }
  }

  lemma OneMore(c: nat, a: nat, b: nat)
    ensures (c + 1) * a - (c + 1) * b == c * a - c * b + a - b
  {
  }

  /** The first piece of a join is a prefix of it. */
  lemma {:induction false} JoinPrefix(ps: seq<string>, sep: string)
    requires |ps| >= 1
    ensures StartsWith(Join(ps, sep), ps[0])
  {
    if |ps| > 1 {
      assert Join(ps, sep) == ps[0] + (sep + Join(ps[1..], sep));
    }
  }

  /** Growing the first piece by one character grows the join by it. */
  lemma JoinConsHead(c: char, ps: seq<string>, sep: string)
    requires |ps| >= 1
    ensures Join([[c] + ps[0]] + ps[1..], sep) == [c] + Join(ps, sep)
  {
    var qs := [[c] + ps[0]] + ps[1..];
    assert qs[1..] == ps[1..];
    if |ps| > 1 {
      assert Join(qs, sep) == [c] + ps[0] + sep + Join(ps[1..], sep);
    }
  }

  /**
   * `ReplaceAll` cuts `s` into pieces at the occurrences it replaces:
   * joining the pieces with `t` gives `s` back, joining them with `rep`
   * gives the result, there is one piece more than the count, and no piece
   * contains `t` (every occurrence inside a piece would have been found).
   */
  lemma PiecesFacts(s: string, t: string, rep: string)
    requires t != ""
    ensures |Pieces(s, t)| == ReplaceAll(s, t, rep).count + 1
    ensures Join(Pieces(s, t), t) == s
    ensures Join(Pieces(s, t), rep) == ReplaceAll(s, t, rep).text
    ensures forall k :: 0 <= k < |Pieces(s, t)| ==> !Contains(Pieces(s, t)[k], t)
  {
    PiecesCount(s, t, rep);
    PiecesJoinResult(s, t, rep);
    PiecesJoinSource(s, t);
    PiecesFree(s, t);
  }

  lemma {:induction false} PiecesCount(s: string, t: string, rep: string)
    requires t != ""
    ensures |Pieces(s, t)| == ReplaceAll(s, t, rep).count + 1
    decreases |s|
  {
    if |s| >= |t| {
      if s[..|t|] == t {
        PiecesCount(s[|t|..], t, rep);
      } else {
        PiecesCount(s[1..], t, rep);
      }
    }
  }

  lemma {:induction false} PiecesJoinResult(s: string, t: string, rep: string)
    requires t != ""
    ensures Join(Pieces(s, t), rep) == ReplaceAll(s, t, rep).text
    decreases |s|
  {
    if |s| >= |t| {
      if s[..|t|] == t {
        var qs := Pieces(s[|t|..], t);
        PiecesJoinResult(s[|t|..], t, rep);
        assert ([""] + qs)[1..] == qs;
      } else {
        PiecesJoinResult(s[1..], t, rep);
        JoinConsHead(s[0], Pieces(s[1..], t), rep);
      }
    }
  }

  lemma {:induction false} PiecesJoinSource(s: string, t: string)
    requires t != ""
    ensures Join(Pieces(s, t), t) == s
    decreases |s|
  {
    if |s| >= |t| {
      if s[..|t|] == t {
        var rest := s[|t|..];
        var qs := Pieces(rest, t);
        PiecesJoinSource(rest, t);
        assert ([""] + qs)[1..] == qs;
        assert s == t + rest;
      } else {
        PiecesJoinSource(s[1..], t);
        JoinConsHead(s[0], Pieces(s[1..], t), t);
        assert [s[0]] + s[1..] == s;
      }
    }
  }

  lemma {:induction false} PiecesFree(s: string, t: string)
    requires t != ""
    ensures forall k :: 0 <= k < |Pieces(s, t)| ==> !Contains(Pieces(s, t)[k], t)
    decreases |s|
  {
    var ps := Pieces(s, t);
    if |s| < |t| {
      assert forall i :: !Occurs(s, t, i);
    } else if s[..|t|] == t {
      var qs := Pieces(s[|t|..], t);
      PiecesFree(s[|t|..], t);
      assert !Contains("", t) by {
        assert forall i :: !Occurs("", t, i);
      }
      forall k | 0 <= k < |ps|
        ensures !Contains(ps[k], t)
      {
        if k > 0 {
          assert ps[k] == qs[k - 1];
        }
      }
    } else {
      var rest := s[1..];
      var qs := Pieces(rest, t);
      PiecesFree(rest, t);
      var first := [s[0]] + qs[0];
      assert !Contains(first, t) by {
        if Contains(first, t) {
          var i: int :| Occurs(first, t, i);
          assert Occurs(first, t, i);
          if i == 0 {
            PiecesJoinSource(rest, t);
            JoinPrefix(qs, t);
          } else {
            assert first[1..] == qs[0];
            assert first[1..][i - 1..i - 1 + |t|] == first[i..i + |t|];
            assert Occurs(qs[0], t, i - 1);
          }
        }
      }
      forall k | 0 <= k < |ps|
        ensures !Contains(ps[k], t)
      {
        if k > 0 {
          assert ps[k] == qs[k];
        }
      }
    }
  }

  /**
   * Replacing a text by itself leaves the content as it was, whatever the
   * count: a positive count does not imply a change.
   */
  lemma SelfReplacement(s: string, t: string)
    ensures LiteralReplace(s, t, t).text == s
  {
    if t == "" {
      InterleaveEmpty(s);
    } else {
      PiecesFacts(s, t, t);
    }
  }

  lemma {:induction false} InterleaveEmpty(s: string)
    ensures Interleave(s, "") == s
  {
    if s != [] {
      InterleaveEmpty(s[1..]);
      assert [s[0]] + s[1..] == s;
    }
  }
}
