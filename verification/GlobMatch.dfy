/**
 c_strmatch: shell-style matching of test names, where '*' is documented to match zero or more
 characters and '?' exactly one.
 */
module GlobMatch {

  // The documented relation.
  ghost predicate Glob(s: string, p: string)
    decreases |p|
  {
    if p == [] then s == []
    else if p[0] == '*' then exists k :: 0 <= k <= |s| && Glob(s[k..], p[1..])
    else s != [] && (p[0] == '?' || p[0] == s[0]) && Glob(s[1..], p[1..])
  }

  // The stars at the end of a pattern, and what comes before them.
  function TrailingStars(p: string): (n: nat)
    ensures n <= |p|
    ensures forall i :: |p| - n <= i < |p| ==> p[i] == '*'
    ensures n < |p| ==> p[|p| - n - 1] != '*'
  {
    if p == [] || p[|p| - 1] != '*' then 0 else 1 + TrailingStars(p[..|p| - 1])
  }

  function Core(p: string): string {
    p[..|p| - TrailingStars(p)]
  }

  // What the code computes: the documented relation, except that a final run of two or more
  // stars has to consume at least one character.
  ghost predicate Accepts(s: string, p: string) {
    if TrailingStars(p) < 2 then Glob(s, p)
    else exists k :: 0 <= k < |s| && Glob(s[..k], Core(p))
  }

  // ---------- Facts about the documented relation ----------

  lemma {:induction false} StarsMatchAnything(s: string, n: nat)
    requires n >= 1
    ensures Glob(s, seq(n, _ => '*'))
    decreases n
  {
    var p := seq(n, _ => '*');
    assert p[1..] == seq(n - 1, _ => '*');
    if n > 1 {
      StarsMatchAnything(s, n - 1);
      assert s[0..] == s;
    } else {
      assert s[|s|..] == [];
    }
  }

  ghost predicate InTwoParts(s: string, p: string, q: string) {
    exists k :: 0 <= k <= |s| && Glob(s[..k], p) && Glob(s[k..], q)
  }

  lemma {:induction false} StarConcat(s: string, p: string, q: string)
    requires p != [] && p[0] == '*' && (p + q)[1..] == p[1..] + q
    ensures Glob(s, p + q) <==> InTwoParts(s, p, q)
    decreases |p|, 0
  {
    if Glob(s, p + q) {
      var j :| 0 <= j <= |s| && Glob(s[j..], p[1..] + q);
      GlobConcat(s[j..], p[1..], q);
      var k :| 0 <= k <= |s[j..]| && Glob(s[j..][..k], p[1..]) && Glob(s[j..][k..], q);
      assert s[..j + k][j..] == s[j..][..k] && s[j + k..] == s[j..][k..];
      assert Glob(s[..j + k], p);
    }
    if k :| 0 <= k <= |s| && Glob(s[..k], p) && Glob(s[k..], q) {
      var j :| 0 <= j <= k && Glob(s[..k][j..], p[1..]);
      GlobConcat(s[j..], p[1..], q);
      assert s[j..][..k - j] == s[..k][j..] && s[j..][k - j..] == s[k..];
    }
  }

  // A pattern in two parts matches exactly the strings in two parts.
  lemma {:induction false} GlobConcat(s: string, p: string, q: string)
    ensures Glob(s, p + q) <==> InTwoParts(s, p, q)
    decreases |p|, 1
  {
    if p == [] {
      assert p + q == q;
      assert s[..0] == [] && s[0..] == s;
    } else {
      assert (p + q)[1..] == p[1..] + q;
      if p[0] == '*' {
        StarConcat(s, p, q);
      } else {
        PlainConcat(s, p, q);
      }
    }
  }

  lemma {:induction false} PlainConcat(s: string, p: string, q: string)
    requires p != [] && p[0] != '*' && (p + q)[1..] == p[1..] + q
    ensures Glob(s, p + q) <==> InTwoParts(s, p, q)
    decreases |p|, 0
  {
    if Glob(s, p + q) {
      GlobConcat(s[1..], p[1..], q);
      var k :| 0 <= k <= |s[1..]| && Glob(s[1..][..k], p[1..]) && Glob(s[1..][k..], q);
      assert s[..k + 1][1..] == s[1..][..k] && s[k + 1..] == s[1..][k..];
    }
    if k :| 0 <= k <= |s| && Glob(s[..k], p) && Glob(s[k..], q) {
      GlobConcat(s[1..], p[1..], q);
      assert s[1..][..k - 1] == s[..k][1..] && s[1..][k - 1..] == s[k..];
    }
  }

  // With stars at the end, the documented relation asks for the core to match a prefix.
  lemma GlobWithTrailingStars(s: string, p: string)
    requires TrailingStars(p) >= 1
    ensures Glob(s, p) <==> exists k :: 0 <= k <= |s| && Glob(s[..k], Core(p))
  {
    var n := TrailingStars(p);
    var stars := seq(n, _ => '*');
    assert p == Core(p) + stars;
    GlobConcat(s, Core(p), stars);
    forall k | 0 <= k <= |s| ensures Glob(s[k..], stars) {
      StarsMatchAnything(s[k..], n);
    }
  }

  predicate AllStars(p: string) {
    forall i :: 0 <= i < |p| ==> p[i] == '*'
  }

  lemma {:induction false} EmptyNeedsStars(p: string)
    ensures Glob([], p) <==> AllStars(p)
    decreases |p|
  {
    if p != [] {
      EmptyNeedsStars(p[1..]);
      var e: string := [];
      assert e[0..] == e;
      assert AllStars(p) <==> p[0] == '*' && AllStars(p[1..]);
    }
  }

  lemma OnlyStars(p: string)
    requires AllStars(p)
    ensures TrailingStars(p) == |p| && Core(p) == []
  {
  }

  // A pattern with something other than stars ends as its tail does.
  lemma TailEndsAlike(p: string)
    requires p != [] && !AllStars(p)
    ensures TrailingStars(p) == TrailingStars(p[1..]) && Core(p) == [p[0]] + Core(p[1..])
  {
  }

  // ---------- How Accepts follows the pattern ----------

  lemma AcceptsChar(s: string, p: string)
    requires p != [] && p[0] != '*'
    ensures Accepts(s, p) <==> s != [] && (p[0] == '?' || p[0] == s[0]) && Accepts(s[1..], p[1..])
  {
    TailEndsAlike(p);
    if TrailingStars(p) >= 2 {
      var c := Core(p);
      assert c[1..] == Core(p[1..]);
      if k :| 0 <= k < |s| && Glob(s[..k], c) {
        assert s[..k][1..] == s[1..][..k - 1];
      }
      if s != [] && (p[0] == '?' || p[0] == s[0]) && Accepts(s[1..], p[1..]) {
        var k :| 0 <= k < |s[1..]| && Glob(s[1..][..k], c[1..]);
        assert s[..k + 1][1..] == s[1..][..k];
        assert Glob(s[..k + 1], c);
      }
    }
  }

  lemma AcceptsOnlyStars(s: string, p: string)
    requires p != [] && AllStars(p)
    ensures Accepts(s, p) <==> |p| == 1 || s != []
  {
    OnlyStars(p);
    if |p| == 1 {
      assert p == seq(1, _ => '*');
      StarsMatchAnything(s, 1);
    } else if s != [] {
      assert s[..0] == [];
    }
  }

  // A star in front takes some prefix, and any prefix will do.
  lemma StarSplit(s: string, c: string, k: nat) returns (j: nat)
    requires c != [] && c[0] == '*' && k <= |s| && Glob(s[..k], c)
    ensures j <= k && Glob(s[j..][..k - j], c[1..])
  {
    j :| 0 <= j <= k && Glob(s[..k][j..], c[1..]);
    assert s[..k][j..] == s[j..][..k - j];
  }

  lemma StarJoin(s: string, c: string, j: nat, m: nat)
    requires c != [] && c[0] == '*' && j + m <= |s| && Glob(s[j..][..m], c[1..])
    ensures Glob(s[..j + m], c)
  {
    assert s[..j + m][j..] == s[j..][..m];
  }

  lemma AcceptsStarCore(s: string, p: string)
    requires |p| > 1 && p[0] == '*' && !AllStars(p[1..]) && TrailingStars(p) >= 2
    ensures Accepts(s, p) <==> exists k :: 0 <= k < |s| && Accepts(s[k..], p[1..])
  {
    TailEndsAlike(p);
    var c := Core(p);
    assert c[1..] == Core(p[1..]);
    if k :| 0 <= k < |s| && Glob(s[..k], c) {
      var j := StarSplit(s, c, k);
      assert Accepts(s[j..], p[1..]);
    }
    if j :| 0 <= j < |s| && Accepts(s[j..], p[1..]) {
      var m :| 0 <= m < |s[j..]| && Glob(s[j..][..m], c[1..]);
      StarJoin(s, c, j, m);
    }
  }

  lemma AcceptsStar(s: string, p: string)
    requires |p| > 1 && p[0] == '*'
    ensures Accepts(s, p) <==> exists k :: 0 <= k < |s| && Accepts(s[k..], p[1..])
  {
    if AllStars(p[1..]) {
      assert AllStars(p) by {
        assert forall i :: 1 <= i < |p| ==> p[i] == p[1..][i - 1];
      }
      AcceptsOnlyStars(s, p);
      if s != [] {
        AcceptsOnlyStars(s[0..], p[1..]);
      }
    } else if TrailingStars(p) < 2 {
      EmptyNeedsStars(p[1..]);
      assert s[|s|..] == [];
    } else {
      AcceptsStarCore(s, p);
    }
  }

  // ---------- The code ----------

  method StrMatch(str: string, pattern: string) returns (ok: bool)
    ensures ok <==> Accepts(str, pattern)
    decreases |pattern|, 1
  {
    var i, j := 0, 0;
    while true
      invariant 0 <= i <= |str| && 0 <= j <= |pattern|
      invariant Accepts(str, pattern) <==> Accepts(str[i..], pattern[j..])
      decreases |pattern| - j
    {
      if j == |pattern| {
        return i == |str|;
      }
      if pattern[j] == '*' {
        j := j + 1;
        if j == |pattern| {
          AcceptsOnlyStars(str[i..], pattern[j - 1..]);
          return true;
        }
        AcceptsStar(str[i..], pattern[j - 1..]);
        assert pattern[j - 1..][1..] == pattern[j..];
        ok := MatchSomewhere(str[i..], pattern[j..]);
        return;
      }
      AcceptsChar(str[i..], pattern[j..]);
      if i == |str| {
        return false;
      }
      if pattern[j] != '?' && str[i] != pattern[j] {
        return false;
      }
      i, j := i + 1, j + 1;
    }
  }

  // The inner loop: try to match at each position but the end of the string.
  method MatchSomewhere(str: string, pattern: string) returns (ok: bool)
    ensures ok <==> exists k :: 0 <= k < |str| && Accepts(str[k..], pattern)
    decreases |pattern|, 2
  {
    for i := 0 to |str|
      invariant forall k :: 0 <= k < i ==> !Accepts(str[k..], pattern)
    {
      ok := StrMatch(str[i..], pattern);
      if ok {
        return true;
      }
    }
    return false;
  }

  datatype CString = Null | Text(chars: string)

  // c_strmatch with the null checks: a null string or pattern matches nothing.
  method MatchNames(str: CString, pattern: CString) returns (ok: bool)
    ensures ok <==> str.Text? && pattern.Text? && Accepts(str.chars, pattern.chars)
  {
    if str.Null? || pattern.Null? {
      return false;
    }
    ok := StrMatch(str.chars, pattern.chars);
  }

  // ---------- Main results ----------

  // Whatever is accepted is a documented match.
  lemma Sound(s: string, p: string)
    requires Accepts(s, p)
    ensures Glob(s, p)
  {
    if TrailingStars(p) >= 2 {
      GlobWithTrailingStars(s, p);
    }
  }

  // A documented match is refused exactly when the pattern ends in two or more stars and its
  // core matches the whole string but no proper prefix of it.
  lemma RefusedMatches(s: string, p: string)
    ensures Glob(s, p) && !Accepts(s, p) <==>
              && TrailingStars(p) >= 2
              && Glob(s, Core(p))
              && forall k :: 0 <= k < |s| ==> !Glob(s[..k], Core(p))
  {
    if TrailingStars(p) >= 2 {
      GlobWithTrailingStars(s, p);
      assert s[..|s|] == s;
    }
  }

  ghost predicate Complete(p: string) {
    forall s :: Glob(s, p) ==> Accepts(s, p)
  }

  // The shortest string that the core of a pattern matches: a character for each non-star.
  function Shortest(p: string): (s: string)
    ensures |s| <= |p|
  {
    if p == [] then []
    else if p[0] == '*' then Shortest(p[1..])
    else [if p[0] == '?' then 'x' else p[0]] + Shortest(p[1..])
  }

  lemma {:induction false} ShortestMatches(p: string)
    ensures Glob(Shortest(p), p)
    decreases |p|
  {
    if p != [] {
      ShortestMatches(p[1..]);
      var s := Shortest(p);
      if p[0] == '*' {
        assert s[0..] == s;
      } else {
        assert s[1..] == Shortest(p[1..]);
      }
    }
  }

  lemma {:induction false} NothingShorter(s: string, p: string)
    requires Glob(s, p)
    ensures |s| >= |Shortest(p)|
    decreases |p|
  {
    if p != [] {
      if p[0] == '*' {
        var k :| 0 <= k <= |s| && Glob(s[k..], p[1..]);
        NothingShorter(s[k..], p[1..]);
      } else {
        NothingShorter(s[1..], p[1..]);
      }
    }
  }

  // The code agrees with the documentation on every string exactly for the patterns that do
  // not end in two or more stars.
  lemma CompleteIff(p: string)
    ensures Complete(p) <==> TrailingStars(p) < 2
  {
    if TrailingStars(p) >= 2 {
      var s := Shortest(Core(p));
      ShortestMatches(Core(p));
      forall k | 0 <= k < |s| ensures !Glob(s[..k], Core(p)) {
        if Glob(s[..k], Core(p)) {
          NothingShorter(s[..k], Core(p));
        }
      }
      RefusedMatches(s, p);
    }
  }
}
