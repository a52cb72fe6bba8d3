/** The two regular expressions the client forms test: `/\S+@\S+\.\S+/` for an
    e-mail address and `/^https?:\/\/.+/` for an avatar URL. */
module FormRules {
  import opened Text

  /** No white space in `s[lo..hi]`. */
  ghost predicate NonSpace(s: string, lo: int, hi: int)
    requires 0 <= lo <= hi <= |s|
  {
    forall k :: lo <= k < hi ==> !IsSpace(s[k])
  }

  /** The unanchored pattern `\S+@\S+\.\S+` matches with its `@` at `a` and its
      `.` at `d`: one non-space before `@`, a non-empty non-space run between them,
      one non-space after `.` (longer runs are never needed for a match). */
  ghost predicate EmailMatchAt(s: string, a: int, d: int)
  {
    && 1 <= a && a + 1 < d && d + 1 < |s|
    && s[a] == '@' && s[d] == '.'
    && !IsSpace(s[a - 1]) && NonSpace(s, a + 1, d) && !IsSpace(s[d + 1])
  }

  ghost predicate EmailPattern(s: string)
  {
    exists a, d :: EmailMatchAt(s, a, d)
  }

  /** From `k` on: a non-empty non-space run, a `.`, then a non-space character. */
  function DotTail(s: string, k: nat): bool
    requires k <= |s|
    decreases |s| - k
  {
    if k + 2 >= |s| then false
    else if IsSpace(s[k]) then false
    else (s[k + 1] == '.' && !IsSpace(s[k + 2])) || DotTail(s, k + 1)
  }

  /** Some `@` at position `a` or later completes a match. */
  function AtFrom(s: string, a: nat): bool
    requires 1 <= a
    decreases |s| - a
  {
    if a >= |s| then false
    else (s[a] == '@' && !IsSpace(s[a - 1]) && DotTail(s, a + 1)) || AtFrom(s, a + 1)
  }

  /** `/\S+@\S+\.\S+/.test(s)`. */
  function EmailLike(s: string): bool
  {
    AtFrom(s, 1)
  }

  lemma {:induction false} DotTailIff(s: string, k: nat)
    requires k <= |s|
    ensures DotTail(s, k) <==>
            exists d :: k < d && d + 1 < |s| && s[d] == '.' && NonSpace(s, k, d) && !IsSpace(s[d + 1])
    decreases |s| - k
  {
    if k + 2 < |s| && !IsSpace(s[k]) {
      DotTailIff(s, k + 1);
      if s[k + 1] == '.' && !IsSpace(s[k + 2]) {
        assert NonSpace(s, k, k + 1);
      }
      if DotTail(s, k + 1) {
        var d :| k + 1 < d && d + 1 < |s| && s[d] == '.' && NonSpace(s, k + 1, d) && !IsSpace(s[d + 1]);
        assert NonSpace(s, k, d);
      }
      if exists d :: k < d && d + 1 < |s| && s[d] == '.' && NonSpace(s, k, d) && !IsSpace(s[d + 1]) {
        var d :| k < d && d + 1 < |s| && s[d] == '.' && NonSpace(s, k, d) && !IsSpace(s[d + 1]);
        if d > k + 1 {
          assert NonSpace(s, k + 1, d);
        }
      }
    } else if k + 2 < |s| {
      assert forall d :: k < d && d + 1 < |s| ==> !NonSpace(s, k, d);
    }
  }

  lemma {:induction false} AtFromIff(s: string, a: nat)
    requires 1 <= a
    ensures AtFrom(s, a) <==> exists a', d :: a <= a' && EmailMatchAt(s, a', d)
    decreases |s| - a
  {
    if a < |s| {
      AtFromIff(s, a + 1);
      DotTailIff(s, a + 1);
      if exists a', d :: a <= a' && EmailMatchAt(s, a', d) {
        var a', d :| a <= a' && EmailMatchAt(s, a', d);
        if a' == a {
          assert DotTail(s, a + 1);
        } else {
          assert a + 1 <= a' && EmailMatchAt(s, a', d);
        }
      }
      if s[a] == '@' && !IsSpace(s[a - 1]) && DotTail(s, a + 1) {
        var d :| a + 1 < d && d + 1 < |s| && s[d] == '.' && NonSpace(s, a + 1, d) && !IsSpace(s[d + 1]);
        assert EmailMatchAt(s, a, d);
      }
    } else {
      assert forall a', d :: a <= a' ==> !EmailMatchAt(s, a', d);
    }
  }

  /** The scanner decides exactly the pattern. */
  lemma EmailLikeIffPattern(s: string)
    ensures EmailLike(s) <==> EmailPattern(s)
  {
    AtFromIff(s, 1);
    if EmailPattern(s) {
      var a, d :| EmailMatchAt(s, a, d);
      assert 1 <= a;
    }
  }

  /** The scheme prefix `http://` or `https://` followed by a character other than a
      line terminator (what `.+` needs to match once). */
  predicate SchemeThenChar(s: string, scheme: string)
  {
    StartsWith(s, scheme) && |s| > |scheme| && !IsLineTerminator(s[|scheme|])
  }

  /** `/^https?:\/\/.+/.test(s)`. */
  function UrlLike(s: string): (r: bool)
    ensures r ==> |s| >= 8 && (s[..7] == "http://" || s[..8] == "https://")
    ensures r ==> !Blank(s)
  {
    SchemeThenChar(s, "http://") || SchemeThenChar(s, "https://")
  }
}
