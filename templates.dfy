/** The placeholders `$0`, `$1`, ... of a SQL template and their substitution by a match array. */
module Templates {
  import opened JsText

  /** `sprintf("$%d", j)`. */
  function Placeholder(j: nat): string {
    "$" + Decimal(j)
  }

  /** The template after `finalCmd.replace("$j", match[j])` for `j` below `n`. */
  function Substituted(t: string, m: seq<string>, n: nat): string
    requires n <= |m|
  {
    if n == 0 then t else Replace(Substituted(t, m, n - 1), Placeholder(n - 1), m[n - 1])
  }

  /** A text whose only `$` are those of `$1` and `$2` holds no `$0`. */
  lemma NoPlaceholderZero(h: string, a: string, b: string)
    requires '$' !in h && '$' !in a && '$' !in b
    ensures !Contains(h + "$1" + a + "$2" + b, "$0")
  {
    var t := h + "$1" + a + "$2" + b;
    forall j | 0 <= j < |t| - 1
      ensures t[j] == '$' ==> t[j + 1] != '0'
    {
      var k := |h| + 2 + |a|;
      if j < |h| {
        assert t[j] == h[j];
      } else if j == |h| {
        assert t[j + 1] == '1';
      } else if j == |h| + 1 {
        assert t[j] == '1';
      } else if j < k {
        assert t[j] == a[j - |h| - 2];
      } else if j == k {
        assert t[j + 1] == '2';
      } else if j == k + 1 {
        assert t[j] == '2';
      } else {
        assert t[j] == b[j - k - 2];
      }
    }
    forall j | 0 <= j && j + 2 <= |t|
      ensures !OccursAt(t, "$0", j)
    {
      assert t[j..j + 2][0] == t[j] && t[j..j + 2][1] == t[j + 1];
    }
    IndexOfSpec(t, "$0");
  }

  lemma SmallPlaceholders()
    ensures Placeholder(0) == "$0" && Placeholder(1) == "$1" && Placeholder(2) == "$2"
  {
  }

  /**
   * Substituting a match `[whole, x, y]` into `h$1a$2b`: `$0` is absent, `$1` becomes
   * `x` and the first `$2` after it becomes `y`, as long as `x` holds no `$`.
   */
  lemma TwoPlaceholders(h: string, a: string, b: string, whole: string, x: string, y: string)
    requires '$' !in h && '$' !in a && '$' !in b && '$' !in x
    ensures Substituted(h + "$1" + a + "$2" + b, [whole, x, y], 3) == h + x + a + y + b
  {
    var t := h + "$1" + a + "$2" + b;
    var m := [whole, x, y];
    SmallPlaceholders();
    ZeroIsAbsent(h, a, b, whole);
    FirstReplaced(h, a, b, x);
    assert Substituted(t, m, 2) == Replace(Substituted(t, m, 1), "$1", x);
    SecondReplaced(h, a, b, x, y);
    assert Substituted(t, m, 3) == Replace(Substituted(t, m, 2), "$2", y);
  }

  lemma ZeroIsAbsent(h: string, a: string, b: string, whole: string)
    requires '$' !in h && '$' !in a && '$' !in b
    ensures Replace(h + "$1" + a + "$2" + b, "$0", whole) == h + "$1" + a + "$2" + b
  {
    NoPlaceholderZero(h, a, b);
    ReplaceAbsent(h + "$1" + a + "$2" + b, "$0", whole);
  }

  lemma FirstReplaced(h: string, a: string, b: string, x: string)
    requires '$' !in h
    ensures Replace(h + "$1" + a + "$2" + b, "$1", x) == h + x + (a + "$2" + b)
  {
    ReplaceFirstAfter(h, "$1", x, a + "$2" + b);
    assert h + "$1" + a + "$2" + b == h + "$1" + (a + "$2" + b);
  }

  lemma SecondReplaced(h: string, a: string, b: string, x: string, y: string)
    requires '$' !in h && '$' !in a && '$' !in x
    ensures Replace(h + x + (a + "$2" + b), "$2", y) == h + x + a + y + b
  {
    assert '$' !in h + x + a;
    ReplaceFirstAfter(h + x + a, "$2", y, b);
    assert h + x + (a + "$2" + b) == (h + x + a) + "$2" + b;
  }
}
