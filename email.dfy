/** The e-mail test the forms share, `/\S+@\S+\.\S+/.test(s)`. The pattern
    is not anchored, so it holds when SOME part of the text has the shape
    "non-space run, '@', non-space run, '.', non-space run". */
module Email {
  import opened Strings

  predicate NoSpace(s: string) {
    forall i :: 0 <= i < |s| ==> !IsSpace(s[i])
  }

  /** A match of the pattern whose '@' is at `a` and whose '.' is at `d`:
      one non-space character before the '@' suffices, the run between them
      is non-empty and free of space, and a non-space character follows the
      '.'. */
  ghost predicate MatchAt(s: string, a: int, d: int) {
    0 < a && a + 1 < d && d + 1 < |s| &&
    s[a] == '@' && s[d] == '.' &&
    !IsSpace(s[a - 1]) && NoSpace(s[a + 1..d]) && !IsSpace(s[d + 1])
  }

  /** What the regular expression accepts. */
  ghost predicate Matches(s: string) {
    exists a, d :: MatchAt(s, a, d)
  }

  // The scanner ------------------------------------------------------------

  /** The text right after "\S+@\S" can finish a match: a run of non-space
      characters, then '.', then a non-space character. */
  function DotRest(u: string): bool {
    |u| >= 2 && !IsSpace(u[0]) && ((u[0] == '.' && !IsSpace(u[1])) || DotRest(u[1..]))
  }

  /** Some '@' at position `i` or later starts a match. */
  function MatchFrom(s: string, i: nat): bool
    decreases |s| - i
  {
    if i >= |s| then false
    else (0 < i && s[i] == '@' && !IsSpace(s[i - 1]) && i + 1 < |s| && !IsSpace(s[i + 1]) &&
          DotRest(s[i + 2..])) || MatchFrom(s, i + 1)
  }

  /** `/\S+@\S+\.\S+/.test(s)`, as a left-to-right scan. */
  function Test(s: string): bool {
    MatchFrom(s, 1)
  }

  ghost predicate DotAt(u: string, d: int) {
    0 <= d && d + 1 < |u| && u[d] == '.' && NoSpace(u[..d]) && !IsSpace(u[d + 1])
  }

  lemma {:induction false} DotRestIff(u: string)
    ensures DotRest(u) <==> exists d :: DotAt(u, d)
    decreases |u|
  {
    if |u| >= 2 && !IsSpace(u[0]) {
      if u[0] == '.' && !IsSpace(u[1]) {
        assert DotAt(u, 0);
      } else {
        DotRestIff(u[1..]);
        if DotRest(u[1..]) {
          var d :| DotAt(u[1..], d);
          assert u[..d + 1] == [u[0]] + u[1..][..d];
          assert DotAt(u, d + 1);
        } else {
          forall d | DotAt(u, d) ensures false {
            if d > 0 {
              assert u[1..][..d - 1] == u[1..d];
              assert DotAt(u[1..], d - 1);
            }
          }
        }
      }
    } else {
      forall d | DotAt(u, d) ensures false {
      }
    }
  }

  /** A match with '@' at `a` is what the scanner checks at position `a`. */
  lemma AtIff(s: string, a: int)
    requires 0 < a < |s|
    ensures (s[a] == '@' && !IsSpace(s[a - 1]) && a + 1 < |s| && !IsSpace(s[a + 1]) && DotRest(s[a + 2..]))
            <==> exists d :: MatchAt(s, a, d)
  {
    if a + 1 < |s| {
      var u := s[a + 2..];
      DotRestIff(u);
      if s[a] == '@' && !IsSpace(s[a - 1]) && !IsSpace(s[a + 1]) && DotRest(u) {
        var e :| DotAt(u, e);
        assert s[a + 1..a + 2 + e] == [s[a + 1]] + u[..e];
        assert MatchAt(s, a, a + 2 + e);
      }
      forall d | MatchAt(s, a, d)
        ensures !IsSpace(s[a + 1]) && DotAt(u, d - a - 2)
      {
        assert s[a + 1..d][0] == s[a + 1];
        assert u[..d - a - 2] == s[a + 1..d][1..];
      }
    } else {
      forall d | MatchAt(s, a, d) ensures false {
      }
    }
  }

  lemma {:induction false} MatchFromIff(s: string, i: nat)
    requires i >= 1
    ensures MatchFrom(s, i) <==> exists a, d :: a >= i && MatchAt(s, a, d)
    decreases |s| - i
  {
    if i < |s| {
      MatchFromIff(s, i + 1);
      AtIff(s, i);
      if MatchFrom(s, i) {
        if !MatchFrom(s, i + 1) {
          var d :| MatchAt(s, i, d);
        }
      }
      forall a, d | a >= i && MatchAt(s, a, d) ensures MatchFrom(s, i) {
        if a == i {
          assert exists d' :: MatchAt(s, i, d');
        } else {
          assert a >= i + 1 && MatchAt(s, a, d);
        }
      }
    }
  }

  /** The scanner decides exactly the language of the regular expression. */
  lemma TestIff(s: string)
    ensures Test(s) <==> Matches(s)
  {
    MatchFromIff(s, 1);
  }

  /** A match inside a slice is a match of the whole text, shifted. */
  lemma MatchInWhole(s: string, i: int, j: int, a: int, d: int)
    requires 0 <= i <= j <= |s| && MatchAt(s[i..j], a, d)
    ensures MatchAt(s, a + i, d + i)
  {
    var t := s[i..j];
    var u := s[a + i + 1..d + i];
    forall m | 0 <= m < |u| ensures !IsSpace(u[m]) {
      assert t[a + 1..d][m] == t[a + 1 + m] == s[a + i + 1 + m];
    }
  }

  /** A match of the whole text lies inside any slice that leaves out only
      white space. */
  lemma MatchInSlice(s: string, i: int, j: int, a: int, d: int)
    requires 0 <= i <= j <= |s| && AllSpace(s[..i]) && AllSpace(s[j..]) && MatchAt(s, a, d)
    ensures i <= a - 1 && d + 1 < j && MatchAt(s[i..j], a - i, d - i)
  {
    var t := s[i..j];
    var u := t[a - i + 1..d - i];
    forall m | 0 <= m < |u| ensures !IsSpace(u[m]) {
      assert s[a + 1..d][m] == s[a + 1 + m] == t[a - i + 1 + m];
    }
  }

  /** Surrounding white space never takes part in a match, so testing the
      trimmed text gives the same answer as testing the text as typed. */
  lemma TestTrimmed(s: string)
    ensures Test(Trim(s)) == Test(s)
  {
    var t := Trim(s);
    TrimSpec(s);
    TestIff(s);
    TestIff(t);
    var i, j :| 0 <= i <= j <= |s| && t == s[i..j] && AllSpace(s[..i]) && AllSpace(s[j..]) &&
      (t != [] ==> !IsSpace(t[0]) && !IsSpace(t[|t| - 1]));
    if Matches(t) {
      var a, d :| MatchAt(t, a, d);
      MatchInWhole(s, i, j, a, d);
    }
    if Matches(s) {
      var a, d :| MatchAt(s, a, d);
      MatchInSlice(s, i, j, a, d);
    }
  }

  /** Text around an address never spoils a match: the pattern is not
      anchored, so whatever passes still passes with anything before and
      after it. */
  lemma TestSurrounded(s: string, before: string, after: string)
    requires Test(s)
    ensures Test(before + s + after)
  {
    var w := before + s + after;
    TestIff(s);
    TestIff(w);
    var a, d :| MatchAt(s, a, d);
    assert w[|before|..|before| + |s|] == s;
    MatchInWhole(w, |before|, |before| + |s|, a, d);
  }

  /** Examples: a plain address passes; text without a dot after the '@',
      or with space inside the domain, does not; surrounding text and space
      do not matter, since the pattern is not anchored. */
  lemma Examples()
    ensures Test("a@b.c")
    ensures !Test("a@b")
    ensures !Test("a@ b.c")
    ensures Test("  x a@b.c y  ")
  {
    assert "a@b.c"[3..] == ".c";
    assert "  x a@b.c y  "[7..] == ".c y  ";
    assert DotRest(".c y  ");
    assert MatchFrom("  x a@b.c y  ", 5);
    assert !MatchFrom("a@ b.c", 1);
  }
}
