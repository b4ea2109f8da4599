/**
 * The part of JavaScript's regular expressions that the client's two patterns use:
 * a sequence of character classes, each repeated greedily, with some of them captured,
 * searched for from left to right by backtracking.
 */
module Regex {
  import opened Wrappers
  import opened JsText

  /** A character class: `[abc]`, `[^abc]`, or the atom `.` (anything but a line terminator). */
  datatype Class = AnyOf(cs: set<char>) | NoneOf(cs: set<char>) | AnyButLineTerminator

  predicate Accepts(cl: Class, c: char) {
    match cl
    case AnyOf(cs) => c in cs
    case NoneOf(cs) => c !in cs
    case AnyButLineTerminator => !IsLineTerminator(c)
  }

  /** A class repeated greedily, at least `min` and at most `max` times (`None`: no upper bound). */
  datatype Piece = Piece(cl: Class, min: nat, max: Option<nat>)

  /** `c*`. */
  function Star(cl: Class): Piece {
    Piece(cl, 0, None)
  }

  /** `c+`. */
  function Plus(cl: Class): Piece {
    Piece(cl, 1, None)
  }

  /** A single character of the class. */
  function One(cl: Class): Piece {
    Piece(cl, 1, Some(1))
  }

  /** The pieces one after another, and which of them are the capture groups, in group order. */
  datatype Pattern = Pattern(pieces: seq<Piece>, groups: seq<nat>)

  predicate WellFormed(pat: Pattern) {
    forall k :: 0 <= k < |pat.groups| ==> pat.groups[k] < |pat.pieces|
  }

  // ---------------------------------------------------------------------------------
  // Backtracking, as the engine does it
  // ---------------------------------------------------------------------------------

  /** How many characters from `i` on the class accepts, one after another. */
  function Span(cl: Class, s: string, i: nat): (n: nat)
    requires i <= |s|
    ensures i + n <= |s|
    decreases |s| - i
  {
    if i < |s| && Accepts(cl, s[i]) then 1 + Span(cl, s, i + 1) else 0
  }

  /** How many characters a greedy piece takes at `i` before giving any back. */
  function Most(p: Piece, s: string, i: nat): (n: nat)
    requires i <= |s|
    ensures i + n <= |s|
  {
    var n := Span(p.cl, s, i);
    if p.max.Some? && p.max.value < n then p.max.value else n
  }

  /**
   * The pieces matched from position `i`: the first piece takes all it can and the rest
   * is matched after it; when the rest fails, the first piece gives back one character
   * and the rest is tried again. `Some(v)`: the `k`-th piece took `v[k]` characters.
   */
  function MatchAt(ps: seq<Piece>, s: string, i: nat): Option<seq<nat>>
    requires i <= |s|
    decreases |ps|, 1, 0
  {
    if ps == [] then Some([]) else TryFrom(ps, s, i, Most(ps[0], s, i))
  }

  /** The first piece taking `n` characters, then `n - 1`, and so on down to its minimum. */
  function TryFrom(ps: seq<Piece>, s: string, i: nat, n: nat): Option<seq<nat>>
    requires ps != [] && i + n <= |s|
    decreases |ps|, 0, n
  {
    if n < ps[0].min then None
    else match MatchAt(ps[1..], s, i + n)
      case Some(v) => Some([n] + v)
      case None => if n == 0 then None else TryFrom(ps, s, i, n - 1)
  }

  datatype Found = Found(start: nat, counts: seq<nat>)

  /** `RegExp.prototype.exec` without flags: the first start position, from `p` on, where the pieces match. */
  function SearchFrom(ps: seq<Piece>, s: string, p: nat): Option<Found>
    requires p <= |s|
    decreases |s| - p
  {
    match MatchAt(ps, s, p)
    case Some(v) => Some(Found(p, v))
    case None => if p == |s| then None else SearchFrom(ps, s, p + 1)
  }

  // ---------------------------------------------------------------------------------
  // What a match is, independently of how it is found
  // ---------------------------------------------------------------------------------

  /** The piece can take exactly the `n` characters from `i`. */
  predicate Takes(p: Piece, s: string, i: nat, n: nat) {
    && i + n <= |s| && p.min <= n && (p.max.Some? ==> n <= p.max.value)
    && forall t :: i <= t < i + n ==> Accepts(p.cl, s[t])
  }

  /** The pieces, one after another from `i`, can take `v[k]` characters each. */
  predicate Fits(ps: seq<Piece>, s: string, i: nat, v: seq<nat>)
    decreases |ps|
  {
    if ps == [] then v == []
    else |v| > 0 && Takes(ps[0], s, i, v[0]) && Fits(ps[1..], s, i + v[0], v[1..])
  }

  /**
   * `v` is tried no earlier than `w` by backtracking: at the first piece where they differ,
   * `w` takes more. Greedy pieces try larger counts first, leftmost piece first.
   */
  predicate NoGreedier(v: seq<nat>, w: seq<nat>)
    decreases |v|
  {
    v == [] || w == [] || v[0] < w[0] || (v[0] == w[0] && NoGreedier(v[1..], w[1..]))
  }

  lemma {:induction false} SpanSpec(cl: Class, s: string, i: nat)
    requires i <= |s|
    ensures forall t :: i <= t < i + Span(cl, s, i) ==> Accepts(cl, s[t])
    ensures i + Span(cl, s, i) < |s| ==> !Accepts(cl, s[i + Span(cl, s, i)])
    decreases |s| - i
  {
    if i < |s| && Accepts(cl, s[i]) {
      SpanSpec(cl, s, i + 1);
    }
  }

  /** A run of accepted characters is no longer than the span. */
  lemma {:induction false} SpanCovers(cl: Class, s: string, i: nat, n: nat)
    requires i + n <= |s| && forall t :: i <= t < i + n ==> Accepts(cl, s[t])
    ensures n <= Span(cl, s, i)
    decreases n
  {
    if n > 0 {
      SpanCovers(cl, s, i + 1, n - 1);
    }
  }

  /** A span is determined by where the accepted run ends. */
  lemma SpanExact(cl: Class, s: string, i: nat, n: nat)
    requires i + n <= |s| && forall t :: i <= t < i + n ==> Accepts(cl, s[t])
    requires i + n < |s| ==> !Accepts(cl, s[i + n])
    ensures Span(cl, s, i) == n
  {
    SpanCovers(cl, s, i, n);
    SpanSpec(cl, s, i);
  }

  lemma MostTakes(p: Piece, s: string, i: nat, n: nat)
    requires i <= |s| && n <= Most(p, s, i) && p.min <= n
    ensures Takes(p, s, i, n)
  {
    SpanSpec(p.cl, s, i);
  }

  lemma TakesAtMostMost(p: Piece, s: string, i: nat, n: nat)
    requires i <= |s| && Takes(p, s, i, n)
    ensures n <= Most(p, s, i)
  {
    SpanCovers(p.cl, s, i, n);
  }

  /** What backtracking finds is a match. */
  lemma {:induction false} MatchAtFits(ps: seq<Piece>, s: string, i: nat)
    requires i <= |s| && MatchAt(ps, s, i).Some?
    ensures Fits(ps, s, i, MatchAt(ps, s, i).value)
    decreases |ps|, 1, 0
  {
    if ps != [] {
      TryFromFits(ps, s, i, Most(ps[0], s, i));
    }
  }

  lemma {:induction false} TryFromFits(ps: seq<Piece>, s: string, i: nat, n: nat)
    requires ps != [] && i <= |s| && n <= Most(ps[0], s, i) && TryFrom(ps, s, i, n).Some?
    ensures Fits(ps, s, i, TryFrom(ps, s, i, n).value)
    decreases |ps|, 0, n
  {
    var v := TryFrom(ps, s, i, n).value;
    match MatchAt(ps[1..], s, i + n)
    case Some(rest) =>
      MatchAtFits(ps[1..], s, i + n);
      MostTakes(ps[0], s, i, n);
      assert v == [n] + rest && v[1..] == rest;
    case None =>
      TryFromFits(ps, s, i, n - 1);
  }

  /** Every match is one backtracking reaches or passes over: it finds one, and one at least as greedy. */
  lemma {:induction false} MatchAtGreediest(ps: seq<Piece>, s: string, i: nat, w: seq<nat>)
    requires i <= |s| && Fits(ps, s, i, w)
    ensures MatchAt(ps, s, i).Some? && NoGreedier(w, MatchAt(ps, s, i).value)
    decreases |ps|, 1, 0
  {
    if ps != [] {
      TakesAtMostMost(ps[0], s, i, w[0]);
      TryFromGreediest(ps, s, i, Most(ps[0], s, i), w);
    }
  }

  lemma {:induction false} TryFromGreediest(ps: seq<Piece>, s: string, i: nat, n: nat, w: seq<nat>)
    requires ps != [] && i + n <= |s| && Fits(ps, s, i, w) && w[0] <= n
    ensures TryFrom(ps, s, i, n).Some? && NoGreedier(w, TryFrom(ps, s, i, n).value)
    decreases |ps|, 0, n
  {
    if n == w[0] {
      MatchAtGreediest(ps[1..], s, i + n, w[1..]);
      var rest := MatchAt(ps[1..], s, i + n).value;
      assert TryFrom(ps, s, i, n).value == [n] + rest;
      assert ([n] + rest)[1..] == rest;
    } else if MatchAt(ps[1..], s, i + n).None? {
      TryFromGreediest(ps, s, i, n - 1, w);
    }
  }

  /**
   * The search finds the leftmost start at which the pattern matches, and there the match
   * that backtracking prefers: its counts are at least as greedy as those of any match.
   */
  lemma {:induction false} SearchIsLeftmostGreediest(ps: seq<Piece>, s: string, p: nat)
    requires p <= |s|
    ensures SearchFrom(ps, s, p).None? ==> forall q, w :: p <= q <= |s| ==> !Fits(ps, s, q, w)
    ensures SearchFrom(ps, s, p).Some? ==>
      var m := SearchFrom(ps, s, p).value;
      && p <= m.start <= |s| && Fits(ps, s, m.start, m.counts)
      && (forall q, w :: p <= q < m.start ==> !Fits(ps, s, q, w))
      && (forall w :: Fits(ps, s, m.start, w) ==> NoGreedier(w, m.counts))
    decreases |s| - p
  {
    forall w | Fits(ps, s, p, w)
      ensures MatchAt(ps, s, p).Some? && NoGreedier(w, MatchAt(ps, s, p).value)
    {
      MatchAtGreediest(ps, s, p, w);
    }
    if MatchAt(ps, s, p).Some? {
      MatchAtFits(ps, s, p);
    } else if p < |s| {
      SearchIsLeftmostGreediest(ps, s, p + 1);
    }
  }

  // ---------------------------------------------------------------------------------
  // The match array
  // ---------------------------------------------------------------------------------

  /** Where the `k`-th piece starts, from the start of the match. */
  function Offset(v: seq<nat>, k: nat): nat
    requires k <= |v|
  {
    if k == 0 then 0 else Offset(v, k - 1) + v[k - 1]
  }

  lemma {:induction false} OffsetGrows(v: seq<nat>, a: nat, b: nat)
    requires a <= b <= |v|
    ensures Offset(v, a) <= Offset(v, b)
    decreases b
  {
    if a < b {
      OffsetGrows(v, a, b - 1);
    }
  }

  lemma {:induction false} OffsetOfTail(v: seq<nat>, k: nat)
    requires 0 < k <= |v|
    ensures Offset(v, k) == v[0] + Offset(v[1..], k - 1)
    decreases k
  {
    if k > 1 {
      OffsetOfTail(v, k - 1);
    }
  }

  /** What fits has a count per piece and ends inside the text. */
  lemma {:induction false} FitsBounds(ps: seq<Piece>, s: string, i: nat, v: seq<nat>)
    requires Fits(ps, s, i, v)
    ensures |v| == |ps| && (ps != [] ==> i + Offset(v, |v|) <= |s|)
    decreases |ps|
  {
    if ps != [] {
      FitsBounds(ps[1..], s, i + v[0], v[1..]);
      OffsetOfTail(v, |v|);
    }
  }

  /** The text the pieces `a` to `b - 1` took. */
  function Taken(s: string, m: Found, a: nat, b: nat): string
    requires a <= b <= |m.counts| && m.start + Offset(m.counts, |m.counts|) <= |s|
  {
    OffsetGrows(m.counts, a, b);
    OffsetGrows(m.counts, b, |m.counts|);
    s[m.start + Offset(m.counts, a)..m.start + Offset(m.counts, b)]
  }

  /** The texts of the capture groups `gs`. */
  function Captures(s: string, m: Found, gs: seq<nat>): (r: seq<string>)
    requires forall k :: 0 <= k < |gs| ==> gs[k] < |m.counts|
    requires m.start + Offset(m.counts, |m.counts|) <= |s|
    ensures |r| == |gs|
  {
    if gs == [] then [] else [Taken(s, m, gs[0], gs[0] + 1)] + Captures(s, m, gs[1..])
  }

  /** `s.match(re)`: the matched text, then the text of each group; `None` is `null`. */
  function Exec(pat: Pattern, s: string): (r: Option<seq<string>>)
    requires WellFormed(pat) && pat.pieces != []
    ensures r.Some? ==> |r.value| == 1 + |pat.groups|
  {
    match SearchFrom(pat.pieces, s, 0)
    case None => None
    case Some(m) =>
      SearchIsLeftmostGreediest(pat.pieces, s, 0);
      FitsBounds(pat.pieces, s, m.start, m.counts);
      Some([Taken(s, m, 0, |m.counts|)] + Captures(s, m, pat.groups))
  }

  // ---------------------------------------------------------------------------------
  // Matches that backtracking finds at the first try
  // ---------------------------------------------------------------------------------

  /** From `i`, each piece in turn takes all it can, `v[k]` characters, and that is enough for it. */
  predicate GreedyAll(ps: seq<Piece>, s: string, i: nat, v: seq<nat>)
    requires i <= |s|
    decreases |ps|
  {
    if ps == [] then v == []
    else
      && |v| > 0 && Most(ps[0], s, i) == v[0] && ps[0].min <= v[0]
      && GreedyAll(ps[1..], s, i + v[0], v[1..])
  }

  lemma {:induction false} GreedyAllMatches(ps: seq<Piece>, s: string, i: nat, v: seq<nat>)
    requires i <= |s| && GreedyAll(ps, s, i, v)
    ensures MatchAt(ps, s, i) == Some(v)
    decreases |ps|
  {
    if ps != [] {
      GreedyAllMatches(ps[1..], s, i + v[0], v[1..]);
      assert [v[0]] + v[1..] == v;
    }
  }

  /** A piece that takes all it can, and enough, in front of pieces that do so too. */
  lemma GreedyCons(p: Piece, ps: seq<Piece>, s: string, i: nat, n: nat, v: seq<nat>)
    requires i + n <= |s| && Most(p, s, i) == n && p.min <= n && GreedyAll(ps, s, i + n, v)
    ensures GreedyAll([p] + ps, s, i, [n] + v)
  {
    assert ([p] + ps)[1..] == ps && ([n] + v)[1..] == v;
  }

  /** The match array of a match found: the text matched, then each group's text. */
  lemma ExecFound(pat: Pattern, s: string, m: Found)
    requires WellFormed(pat) && pat.pieces != [] && SearchFrom(pat.pieces, s, 0) == Some(m)
    ensures |m.counts| == |pat.pieces| && m.start + Offset(m.counts, |m.counts|) <= |s|
    ensures forall k :: 0 <= k < |pat.groups| ==> pat.groups[k] < |m.counts|
    ensures Exec(pat, s) == Some([Taken(s, m, 0, |m.counts|)] + Captures(s, m, pat.groups))
  {
    SearchIsLeftmostGreediest(pat.pieces, s, 0);
    FitsBounds(pat.pieces, s, m.start, m.counts);
  }

  /** The match array of a pattern with two groups: the text matched, then the two groups' texts. */
  lemma ExecFoundTwo(pat: Pattern, s: string, m: Found, g1: nat, g2: nat)
    requires WellFormed(pat) && pat.pieces != [] && pat.groups == [g1, g2] && SearchFrom(pat.pieces, s, 0) == Some(m)
    ensures |m.counts| == |pat.pieces| && m.start + Offset(m.counts, |m.counts|) <= |s| && g1 < |m.counts| && g2 < |m.counts|
    ensures Exec(pat, s) == Some([Taken(s, m, 0, |m.counts|), Taken(s, m, g1, g1 + 1), Taken(s, m, g2, g2 + 1)])
  {
    ExecFound(pat, s, m);
    assert pat.groups[0] == g1 && pat.groups[1] == g2;
    CapturesOfTwo(s, m, g1, g2);
    var w, x, y := Taken(s, m, 0, |m.counts|), Taken(s, m, g1, g1 + 1), Taken(s, m, g2, g2 + 1);
    assert [w] + [x, y] == [w, x, y];
  }

  /** The match array of a pattern with one group: the text matched, then the group's text. */
  lemma ExecFoundOne(pat: Pattern, s: string, m: Found, g: nat)
    requires WellFormed(pat) && pat.pieces != [] && pat.groups == [g] && SearchFrom(pat.pieces, s, 0) == Some(m)
    ensures |m.counts| == |pat.pieces| && m.start + Offset(m.counts, |m.counts|) <= |s| && g < |m.counts|
    ensures Exec(pat, s) == Some([Taken(s, m, 0, |m.counts|), Taken(s, m, g, g + 1)])
  {
    ExecFound(pat, s, m);
    CapturesOfOne(s, m, g);
    assert [Taken(s, m, 0, |m.counts|)] + [Taken(s, m, g, g + 1)] == [Taken(s, m, 0, |m.counts|), Taken(s, m, g, g + 1)];
  }

  lemma CapturesOfOne(s: string, m: Found, g: nat)
    requires g < |m.counts| && m.start + Offset(m.counts, |m.counts|) <= |s|
    ensures Captures(s, m, [g]) == [Taken(s, m, g, g + 1)]
  {
    assert [g][1..] == [];
  }

  lemma CapturesOfTwo(s: string, m: Found, g1: nat, g2: nat)
    requires g1 < |m.counts| && g2 < |m.counts| && m.start + Offset(m.counts, |m.counts|) <= |s|
    ensures Captures(s, m, [g1, g2]) == [Taken(s, m, g1, g1 + 1), Taken(s, m, g2, g2 + 1)]
  {
    assert [g1, g2][1..] == [g2] && [g2][1..] == [];
  }

  /** Characters all of one class. */
  ghost predicate AllOf(cl: Class, s: string) {
    forall t :: 0 <= t < |s| ==> Accepts(cl, s[t])
  }

  /** An unbounded piece whose class accepts all of `w` and not what follows takes exactly `w`. */
  lemma PieceSpans(p: Piece, s: string, i: nat, w: string)
    requires p.max.None? && i + |w| <= |s| && s[i..i + |w|] == w && AllOf(p.cl, w)
    requires i + |w| < |s| ==> !Accepts(p.cl, s[i + |w|])
    ensures Most(p, s, i) == |w|
  {
    forall t | i <= t < i + |w|
      ensures Accepts(p.cl, s[t])
    {
      assert s[t] == w[t - i];
    }
    SpanExact(p.cl, s, i, |w|);
  }

  /** A pattern that matches at the very start is found there. */
  lemma FoundAtStart(pat: Pattern, s: string, v: seq<nat>)
    requires WellFormed(pat) && pat.pieces != [] && MatchAt(pat.pieces, s, 0) == Some(v)
    ensures SearchFrom(pat.pieces, s, 0) == Some(Found(0, v))
  {
  }
}
