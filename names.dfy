/**
 * The parameter pattern of `\\d`: a schema-qualified table name, each name optionally
 * wrapped in square brackets, and the proof that it matches such a name as a whole.
 */
module Names {
  import opened Wrappers
  import opened Regex

  /** A character of a name in `[^.\]\[]`: anything but a dot or a bracket. */
  const NameChar := NoneOf({'.', ']', '['})

  /** `[\[]*([^.\]\[]+)[\]]*`: a name, optionally wrapped in any number of brackets. */
  const NamePart := [Star(AnyOf({'['})), Plus(NameChar), Star(AnyOf({']'}))]

  /**
   * `[\[]*([^.\]\[]+)[\]]*\.[\[]*([^.\]\[]+)[\]]*` as the RegExp receives it: the
   * string literal drops the backslash before the middle dot, which so matches any
   * character but a line terminator. The pattern is not anchored.
   */
  const QualifiedName := Pattern(NamePart + [One(AnyButLineTerminator)] + NamePart, [1, 5])

  /** The three parts of `o + x + c` found at `i`. */
  lemma NamePartSlices(s: string, i: nat, o: string, x: string, c: string)
    requires i + |o + x + c| <= |s| && s[i..i + |o + x + c|] == o + x + c
    ensures s[i..i + |o|] == o && s[i + |o|..i + |o| + |x|] == x && s[i + |o| + |x|..i + |o + x + c|] == c
  {
    var j1, j2, j3 := i + |o|, i + |o| + |x|, i + |o + x + c|;
    assert s[i..j1] == s[i..j3][..|o|];
    assert s[j1..j2] == s[i..j3][|o|..|o| + |x|];
    assert s[j2..j3] == s[i..j3][|o| + |x|..];
  }

  /**
   * A name part `o + x + c` at `i`, followed by a dot or by nothing: the opening brackets,
   * the name and the closing brackets each take all they can.
   */
  lemma NamePartGreedy(s: string, i: nat, o: string, x: string, c: string, rest: seq<Piece>, v: seq<nat>)
    requires i + |o| + |x| + |c| <= |s|
    requires s[i..i + |o|] == o && s[i + |o|..i + |o| + |x|] == x && s[i + |o| + |x|..i + |o| + |x| + |c|] == c
    requires AllOf(AnyOf({'['}), o) && x != [] && AllOf(NameChar, x) && AllOf(AnyOf({']'}), c)
    requires i + |o| + |x| + |c| < |s| ==> s[i + |o| + |x| + |c|] == '.'
    requires GreedyAll(rest, s, i + |o| + |x| + |c|, v)
    ensures GreedyAll(NamePart + rest, s, i, [|o|, |x|, |c|] + v)
  {
    var j1, j2 := i + |o|, i + |o| + |x|;
    assert s[j1] == x[0];
    PieceSpans(NamePart[2], s, j2, c);
    GreedyCons(NamePart[2], rest, s, j2, |c|, v);
    assert j2 < |s| ==> (c != [] && s[j2] == c[0]) || s[j2] == '.';
    PieceSpans(NamePart[1], s, j1, x);
    GreedyCons(NamePart[1], [NamePart[2]] + rest, s, j1, |x|, [|c|] + v);
    PieceSpans(NamePart[0], s, i, o);
    GreedyCons(NamePart[0], [NamePart[1]] + ([NamePart[2]] + rest), s, i, |o|, [|x|] + ([|c|] + v));
    assert NamePart + rest == [NamePart[0]] + ([NamePart[1]] + ([NamePart[2]] + rest));
    assert [|o|, |x|, |c|] + v == [|o|] + ([|x|] + ([|c|] + v));
  }

  /**
   * `schema.table`, each name optionally wrapped in brackets (any number of them),
   * matches as a whole at its start, with the two bare names as the groups.
   */
  lemma QualifiedNameMatches(o1: string, x: string, c1: string, o2: string, y: string, c2: string)
    requires AllOf(AnyOf({'['}), o1) && AllOf(AnyOf({']'}), c1) && AllOf(AnyOf({'['}), o2) && AllOf(AnyOf({']'}), c2)
    requires x != [] && y != [] && AllOf(NameChar, x) && AllOf(NameChar, y)
    ensures Exec(QualifiedName, (o1 + x + c1) + "." + (o2 + y + c2)) == Some([(o1 + x + c1) + "." + (o2 + y + c2), x, y])
  {
    var first, second := o1 + x + c1, o2 + y + c2;
    var s := first + "." + second;
    var p := |first| + 1;
    assert s[0..|first|] == first && s[|first|] == '.' && s[p..p + |second|] == second;
    NamePartSlices(s, 0, o1, x, c1);
    NamePartSlices(s, p, o2, y, c2);
    var v2 := [|o2|, |y|, |c2|];
    NamePartGreedy(s, p, o2, y, c2, [], []);
    assert NamePart + [] == NamePart && v2 + [] == v2;
    assert Most(One(AnyButLineTerminator), s, |first|) == 1;
    GreedyCons(One(AnyButLineTerminator), NamePart, s, |first|, 1, v2);
    NamePartGreedy(s, 0, o1, x, c1, [One(AnyButLineTerminator)] + NamePart, [1] + v2);
    var ps := QualifiedName.pieces;
    var v := [|o1|, |x|, |c1|] + ([1] + v2);
    assert ps == NamePart + ([One(AnyButLineTerminator)] + NamePart);
    GreedyAllMatches(ps, s, 0, v);
    assert v == [|o1|, |x|, |first| - |o1| - |x|, 1, |o2|, |y|, |s| - |first| - 1 - |o2| - |y|];
    QualifiedNameGroups(s, v, |o1|, |x|, |first|, |o2|, |y|);
  }

  /** The match array of `QualifiedName` found at the start with counts `v`. */
  lemma QualifiedNameGroups(s: string, v: seq<nat>, a: nat, b: nat, f: nat, d: nat, e: nat)
    requires v == [a, b, f - a - b, 1, d, e, |s| - f - 1 - d - e] && a + b <= f && f + 1 + d + e <= |s|
    requires MatchAt(QualifiedName.pieces, s, 0) == Some(v)
    ensures Exec(QualifiedName, s) == Some([s, s[a..a + b], s[f + 1 + d..f + 1 + d + e]])
  {
    FoundAtStart(QualifiedName, s, v);
    var m := Found(0, v);
    assert QualifiedName.groups == [1, 5];
    ExecFoundTwo(QualifiedName, s, m, 1, 5);
    QualifiedNameOffsets(v, a, b, f, d, e, |s|);
    assert Taken(s, m, 0, 7) == s && Taken(s, m, 1, 2) == s[a..a + b] && Taken(s, m, 5, 6) == s[f + 1 + d..f + 1 + d + e];
  }

  lemma QualifiedNameOffsets(v: seq<nat>, a: nat, b: nat, f: nat, d: nat, e: nat, n: nat)
    requires v == [a, b, f - a - b, 1, d, e, n - f - 1 - d - e] && a + b <= f && f + 1 + d + e <= n
    ensures Offset(v, 0) == 0 && Offset(v, 1) == a && Offset(v, 2) == a + b
    ensures Offset(v, 5) == f + 1 + d && Offset(v, 6) == f + 1 + d + e && Offset(v, 7) == n
  {
    assert Offset(v, 1) == a;
    assert Offset(v, 2) == a + b;
    assert Offset(v, 3) == f;
    assert Offset(v, 4) == f + 1;
    assert Offset(v, 5) == f + 1 + d;
    assert Offset(v, 6) == f + 1 + d + e;
  }

}
