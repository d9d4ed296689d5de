/**
 c_strreplace: replace every occurrence of a pattern in a NUL-terminated string, in place,
 always starting the next search from the beginning of the buffer.
 */
module StrReplace {

  // ---------- Searching and replacing on values ----------

  predicate OccursAt(s: string, pat: string, i: int) {
    0 <= i && i + |pat| <= |s| && s[i..i + |pat|] == pat
  }

  ghost predicate Occurs(s: string, pat: string) {
    exists i :: OccursAt(s, pat, i)
  }

  // strstr: the leftmost occurrence at or after i, or -1.
  function FindFrom(s: string, pat: string, i: nat): (r: int)
    requires i <= |s|
    ensures r == -1 ==> forall j :: i <= j ==> !OccursAt(s, pat, j)
    ensures r != -1 ==> i <= r && OccursAt(s, pat, r) && forall j :: i <= j < r ==> !OccursAt(s, pat, j)
    decreases |s| - i
  {
    if OccursAt(s, pat, i) then i
    else if i == |s| then -1
    else FindFrom(s, pat, i + 1)
  }

  function Find(s: string, pat: string): int {
    FindFrom(s, pat, 0)
  }

  function ReplaceAt(s: string, i: nat, pat: string, repl: string): (r: string)
    requires OccursAt(s, pat, i)
    ensures |r| == |s| - |pat| + |repl|
  {
    s[..i] + repl + s[i + |pat|..]
  }

  function Max(a: int, b: int): int {
    if a < b then b else a
  }

  // The overflow check fails: no further replacement is made.
  predicate NoRoom(srcLen: nat, s: string, pat: string, repl: string) {
    srcLen <= |s| + Max(|pat|, |repl|) + 1
  }

  // ---------- Equal lengths: every replacement moves the string one way ----------

  const BASE: nat := 0x11_0000

  // The string read as a number, most significant character first.
  function Value(s: string): nat {
    if s == [] then 0 else Value(s[..|s| - 1]) * BASE + s[|s| - 1] as nat
  }

  function Power(k: nat): (r: nat)
    ensures r > 0
  {
    if k == 0 then 1 else Power(k - 1) * BASE
  }

  lemma {:induction false} ValueBelowPower(s: string)
    ensures Value(s) < Power(|s|)
    decreases |s|
  {
    if s != [] {
      var r := s[..|s| - 1];
      ValueBelowPower(r);
      assert (Value(r) + 1) * BASE <= Power(|r|) * BASE;
    }
  }

  // s comes before t: they agree up to d and s is smaller there.
  predicate Before(s: string, t: string, d: nat) {
    |s| == |t| && d < |s| && s[..d] == t[..d] && s[d] < t[d]
  }

  lemma {:induction false} BeforeIsSmaller(s: string, t: string, d: nat)
    requires Before(s, t, d)
    ensures Value(s) < Value(t)
    decreases |s|
  {
    var s', t' := s[..|s| - 1], t[..|t| - 1];
    if d == |s| - 1 {
      assert s' == t';
    } else {
      assert s'[..d] == s[..d] && t'[..d] == t[..d];
      BeforeIsSmaller(s', t', d);
      assert (Value(s') + 1) * BASE <= Value(t') * BASE;
    }
  }

  function FirstDifference(s: string, t: string): (d: nat)
    requires |s| == |t| && s != t
    ensures d < |s| && s[..d] == t[..d] && s[d] != t[d]
  {
    if s[0] != t[0] then 0
    else
      assert s == [s[0]] + s[1..] && t == [t[0]] + t[1..];
      var d := FirstDifference(s[1..], t[1..]);
      assert s[..d + 1] == [s[0]] + s[1..][..d] && t[..d + 1] == [t[0]] + t[1..][..d];
      d + 1
  }

  lemma SameLengthMoves(s: string, i: nat, pat: string, repl: string)
    requires OccursAt(s, pat, i) && |pat| == |repl| && pat != repl
    ensures var d, s' := FirstDifference(pat, repl), ReplaceAt(s, i, pat, repl);
            if repl[d] < pat[d] then Value(s') < Value(s) else Value(s) < Value(s')
  {
    var d, s' := FirstDifference(pat, repl), ReplaceAt(s, i, pat, repl);
    assert s'[..i + d] == s[..i] + repl[..d];
    assert s[..i + d] == s[..i] + pat[..d] by {
      assert s == s[..i] + pat + s[i + |pat|..];
    }
    assert s[i + d] == pat[d] && s'[i + d] == repl[d];
    if repl[d] < pat[d] {
      BeforeIsSmaller(s', s, i + d);
    } else {
      BeforeIsSmaller(s, s', i + d);
    }
  }

  // ---------- The replacement loop on values ----------

  // What strictly decreases from one replacement to the next.
  ghost function Fuel(srcLen: nat, s: string, pat: string, repl: string): int
    requires pat != repl
  {
    if |repl| < |pat| then |s|
    else if |repl| > |pat| then srcLen - |s|
    else if repl[FirstDifference(pat, repl)] < pat[FirstDifference(pat, repl)] then Value(s)
    else Power(|s|) - Value(s)
  }

  lemma ReplacementUsesFuel(srcLen: nat, s: string, i: nat, pat: string, repl: string)
    requires pat != repl && OccursAt(s, pat, i) && !NoRoom(srcLen, s, pat, repl)
    ensures var s' := ReplaceAt(s, i, pat, repl);
            0 <= Fuel(srcLen, s', pat, repl) < Fuel(srcLen, s, pat, repl)
  {
    if |pat| == |repl| {
      SameLengthMoves(s, i, pat, repl);
      ValueBelowPower(ReplaceAt(s, i, pat, repl));
    }
  }

  // The C function comes back exactly in these cases.
  ghost predicate Stops(srcLen: nat, s: string, pat: string, repl: string) {
    pat != repl || !Occurs(s, pat) || NoRoom(srcLen, s, pat, repl)
  }

  datatype Outcome = Outcome(rc: int, text: string, rounds: nat)

  // Replaces leftmost occurrences, each time searching from the start, until there is none
  // left (0) or the next one might not fit (-1).
  ghost function Loop(srcLen: nat, s: string, pat: string, repl: string): Outcome
    requires Find(s, pat) != -1 && (pat != repl || NoRoom(srcLen, s, pat, repl))
    decreases if pat == repl || NoRoom(srcLen, s, pat, repl) then 0 else 1,
              if pat == repl then 0 else Fuel(srcLen, s, pat, repl)
  {
    if NoRoom(srcLen, s, pat, repl) then Outcome(-1, s, 0)
    else
      ReplacementUsesFuel(srcLen, s, Find(s, pat), pat, repl);
      var s' := ReplaceAt(s, Find(s, pat), pat, repl);
      if Find(s', pat) == -1 then Outcome(0, s', 1)
      else
        var o := Loop(srcLen, s', pat, repl);
        o.(rounds := o.rounds + 1)
  }

  ghost function Replace(srcLen: nat, s: string, pat: string, repl: string): Outcome
    requires Stops(srcLen, s, pat, repl)
  {
    if Find(s, pat) == -1 then Outcome(-1, s, 0) else Loop(srcLen, s, pat, repl)
  }

  // `k` leftmost replacements, each of them with enough room.
  ghost predicate Rewrites(srcLen: nat, s: string, pat: string, repl: string, k: nat, t: string)
    decreases k
  {
    if k == 0 then s == t
    else
      && !NoRoom(srcLen, s, pat, repl)
      && Find(s, pat) != -1
      && Rewrites(srcLen, ReplaceAt(s, Find(s, pat), pat, repl), pat, repl, k - 1, t)
  }

  // What the outcome means: the text is reached by that many leftmost replacements; 0 is
  // returned exactly when there was something to replace and nothing is left; -1 after at
  // least one occurrence means that the next replacement was refused.
  lemma {:induction false} LoopMeaning(srcLen: nat, s: string, pat: string, repl: string)
    requires Find(s, pat) != -1 && (pat != repl || NoRoom(srcLen, s, pat, repl))
    ensures var o := Loop(srcLen, s, pat, repl);
            && Rewrites(srcLen, s, pat, repl, o.rounds, o.text)
            && (o.rc == 0 || o.rc == -1)
            && (o.rc == 0 ==> !Occurs(o.text, pat) && o.rounds > 0)
            && (o.rc == -1 ==> Occurs(o.text, pat) && NoRoom(srcLen, o.text, pat, repl))
            && (o.rounds > 0 <==> !NoRoom(srcLen, s, pat, repl))
            && (o.rounds > 0 ==> |o.text| + 1 < srcLen)
    decreases if pat == repl || NoRoom(srcLen, s, pat, repl) then 0 else 1,
              if pat == repl then 0 else Fuel(srcLen, s, pat, repl)
  {
    if !NoRoom(srcLen, s, pat, repl) {
      ReplacementUsesFuel(srcLen, s, Find(s, pat), pat, repl);
      var s' := ReplaceAt(s, Find(s, pat), pat, repl);
      if Find(s', pat) != -1 {
        LoopMeaning(srcLen, s', pat, repl);
      }
    }
  }

  // ---------- When the loop ends ----------

  ghost predicate Halts(srcLen: nat, s: string, pat: string, repl: string) {
    exists k, t :: Rewrites(srcLen, s, pat, repl, k, t) && (Find(t, pat) == -1 || NoRoom(srcLen, t, pat, repl))
  }

  lemma ReplaceBySame(s: string, i: nat, pat: string)
    requires OccursAt(s, pat, i)
    ensures ReplaceAt(s, i, pat, pat) == s
  {
  }

  lemma {:induction false} ReplacingByItself(srcLen: nat, s: string, pat: string, k: nat, t: string)
    requires Rewrites(srcLen, s, pat, pat, k, t)
    ensures t == s
    decreases k
  {
    if k > 0 {
      ReplaceBySame(s, Find(s, pat), pat);
      ReplacingByItself(srcLen, s, pat, k - 1, t);
    }
  }

  // The loop ends if and only if the pattern and the replacement differ, or there is nothing to
  // replace, or the first size check already fails.
  lemma HaltsIffStops(srcLen: nat, s: string, pat: string, repl: string)
    ensures Halts(srcLen, s, pat, repl) <==> Stops(srcLen, s, pat, repl)
  {
    if Stops(srcLen, s, pat, repl) {
      if Find(s, pat) == -1 {
        assert Rewrites(srcLen, s, pat, repl, 0, s);
      } else {
        LoopMeaning(srcLen, s, pat, repl);
        var o := Loop(srcLen, s, pat, repl);
        assert Rewrites(srcLen, s, pat, repl, o.rounds, o.text);
      }
    } else {
      forall k, t | Rewrites(srcLen, s, pat, repl, k, t) ensures t == s {
        ReplacingByItself(srcLen, s, pat, k, t);
      }
    }
  }

  // ---------- When what was inserted is replaced again ----------

  // Next to the replacement, in a text where the pattern stands between its own first `a` and last
  // `b` characters, the pattern occurs again before the end of what was inserted.
  predicate ReoccursAt(pat: string, repl: string, a: int, b: int, j: int) {
    && 0 <= a <= |pat| && 0 <= b <= |pat| && j < a + |repl|
    && Find(pat[..a] + pat + pat[|pat| - b..], pat) == a
    && OccursAt(pat[..a] + repl + pat[|pat| - b..], pat, j)
  }

  predicate Reoccurs(pat: string, repl: string) {
    exists a, b, j | 0 <= a <= |pat| && 0 <= b <= |pat| && 0 <= j < a + |repl| :: ReoccursAt(pat, repl, a, b, j)
  }

  // The next occurrence, if any, starts behind what has just been inserted.
  ghost predicate StepsClear(s: string, pat: string, repl: string)
    requires Find(s, pat) != -1
  {
    var next := Find(ReplaceAt(s, Find(s, pat), pat, repl), pat);
    next == -1 || next >= Find(s, pat) + |repl|
  }

  // In the first k replacements nothing that was inserted is replaced again.
  ghost predicate Clear(srcLen: nat, s: string, pat: string, repl: string, k: nat)
    decreases k
  {
    k > 0 && Find(s, pat) != -1 && !NoRoom(srcLen, s, pat, repl) ==>
      StepsClear(s, pat, repl) && Clear(srcLen, ReplaceAt(s, Find(s, pat), pat, repl), pat, repl, k - 1)
  }

  lemma SliceOfSlice(s: string, lo: nat, hi: nat, x: nat, y: nat)
    requires x <= y && lo + y <= hi <= |s|
    ensures s[lo..hi][x..y] == s[lo + x..lo + y]
  {
    forall k | 0 <= k < y - x ensures s[lo..hi][x..y][k] == s[lo + x..lo + y][k] {
    }
  }

  lemma SliceOccurs(s: string, pat: string, lo: nat, hi: nat, j: int)
    requires lo <= hi <= |s| && 0 <= j
    ensures OccursAt(s[lo..hi], pat, j) <==> OccursAt(s, pat, lo + j) && lo + j + |pat| <= hi
  {
    if lo + j + |pat| <= hi {
      SliceOfSlice(s, lo, hi, j, j + |pat|);
    }
  }

  // The pattern stays the leftmost one when the text around it is cut off.
  lemma FindInSlice(s: string, pat: string, lo: nat, hi: nat)
    requires Find(s, pat) != -1 && lo <= Find(s, pat) && Find(s, pat) + |pat| <= hi <= |s|
    ensures Find(s[lo..hi], pat) == Find(s, pat) - lo
  {
    var i := Find(s, pat);
    SliceOccurs(s, pat, lo, hi, i - lo);
    forall j | 0 <= j < i - lo ensures !OccursAt(s[lo..hi], pat, j) {
      SliceOccurs(s, pat, lo, hi, j);
    }
  }

  // The three parts of a text, seen through a slice.
  lemma InFirst(x: string, m: string, y: string, lo: nat, hi: nat)
    requires lo <= hi <= |x|
    ensures (x + m + y)[lo..hi] == x[lo..hi]
  {
  }

  lemma InLast(x: string, m: string, y: string, lo: nat, hi: nat)
    requires lo <= hi <= |y|
    ensures (x + m + y)[|x| + |m| + lo..|x| + |m| + hi] == y[lo..hi]
  {
  }

  lemma InAll(x: string, m: string, y: string, a: nat, b: nat, u: string, v: string)
    requires a <= |x| && b <= |y| && x[|x| - a..] == u && y[..b] == v
    ensures (x + m + y)[|x| - a..|x| + |m| + b] == u + m + v
  {
  }

  // What stands around the replacement where an occurrence j reaches across it.
  lemma Around(x: string, repl: string, y: string, pat: string, j: nat, a: nat, b: nat)
    requires OccursAt(x + repl + y, pat, j)
    requires a == Max(|x| - j, 0) && b == Max(j + |pat| - |x| - |repl|, 0) && a <= |pat| && b <= |pat|
    ensures a <= |x| && b <= |y| && x[|x| - a..] == pat[..a] && y[..b] == pat[|pat| - b..]
  {
    if a > 0 {
      SliceOfSlice(x + repl + y, j, j + |pat|, 0, a);
      InFirst(x, repl, y, j, j + a);
    }
    if b > 0 {
      SliceOfSlice(x + repl + y, j, j + |pat|, |pat| - b, |pat|);
      InLast(x, repl, y, 0, b);
    }
  }

  // An occurrence wholly in front of the replacement would have been found before.
  lemma NotInFront(x: string, pat: string, y: string, repl: string, j: int)
    requires Find(x + pat + y, pat) == |x| && OccursAt(x + repl + y, pat, j) && pat != []
    ensures |x| < j + |pat|
  {
    if j + |pat| <= |x| {
      InFirst(x, repl, y, j, j + |pat|);
      InFirst(x, pat, y, j, j + |pat|);
      assert OccursAt(x + pat + y, pat, j);
    }
  }

  lemma BeforePart(x: string, pat: string, y: string, a: nat, b: nat, u: string, v: string)
    requires a <= |x| && b <= |y| && x[|x| - a..] == u && y[..b] == v
    requires Find(x + pat + y, pat) == |x|
    ensures Find(u + pat + v, pat) == a
  {
    InAll(x, pat, y, a, b, u, v);
    FindInSlice(x + pat + y, pat, |x| - a, |x| + |pat| + b);
  }

  lemma AfterPart(x: string, repl: string, y: string, pat: string, j: nat, a: nat, b: nat, u: string, v: string)
    requires a <= |x| && b <= |y| && x[|x| - a..] == u && y[..b] == v
    requires OccursAt(x + repl + y, pat, j) && |x| - a <= j && j + |pat| <= |x| + |repl| + b
    ensures OccursAt(u + repl + v, pat, j - (|x| - a))
  {
    InAll(x, repl, y, a, b, u, v);
    SliceOccurs(x + repl + y, pat, |x| - a, |x| + |repl| + b, j - (|x| - a));
  }

  lemma ReachesAt(x: string, pat: string, y: string, repl: string, j: nat, a: nat, b: nat)
    requires Find(x + pat + y, pat) == |x| && OccursAt(x + repl + y, pat, j) && j < |x| + |repl|
    requires a <= |x| && b <= |y| && a <= |pat| && b <= |pat| && x[|x| - a..] == pat[..a] && y[..b] == pat[|pat| - b..]
    requires |x| - a <= j && j + |pat| <= |x| + |repl| + b
    ensures ReoccursAt(pat, repl, a, b, j - (|x| - a))
  {
    BeforePart(x, pat, y, a, b, pat[..a], pat[|pat| - b..]);
    AfterPart(x, repl, y, pat, j, a, b, pat[..a], pat[|pat| - b..]);
  }

  lemma Reaches(x: string, pat: string, y: string, repl: string, j: nat) returns (a: nat, b: nat, k: nat)
    requires Find(x + pat + y, pat) == |x| && OccursAt(x + repl + y, pat, j) && j < |x| + |repl| && pat != []
    ensures ReoccursAt(pat, repl, a, b, k) && b < |pat|
  {
    NotInFront(x, pat, y, repl, j);
    a, b := Max(|x| - j, 0), Max(j + |pat| - |x| - |repl|, 0);
    assert a <= |pat| && b < |pat|;
    Around(x, repl, y, pat, j, a, b);
    ReachesAt(x, pat, y, repl, j, a, b);
    k := j - (|x| - a);
  }

  // A replacement that is touched again shows that the pattern can reoccur.
  lemma TouchedReoccurs(s: string, pat: string, repl: string) returns (a: nat, b: nat, j: nat)
    requires Find(s, pat) != -1 && !StepsClear(s, pat, repl)
    ensures ReoccursAt(pat, repl, a, b, j) && (pat != [] ==> b < |pat|)
  {
    var i := Find(s, pat);
    if pat == [] {
      a, b, j := 0, 0, 0;
    } else {
      var x, y := s[..i], s[i + |pat|..];
      assert s == x + pat + y;
      a, b, j := Reaches(x, pat, y, repl, Find(x + repl + y, pat));
    }
  }

  // And where it can, there is a text on which it does.
  lemma TouchedAt(pat: string, repl: string, a: nat, b: nat, j: nat) returns (s: string)
    requires ReoccursAt(pat, repl, a, b, j)
    ensures s == pat[..a] + pat + pat[|pat| - b..] && Find(s, pat) == a && !StepsClear(s, pat, repl)
  {
    var u, v := pat[..a], pat[|pat| - b..];
    s := u + pat + v;
    assert ReplaceAt(s, a, pat, repl) == u + repl + v;
  }

  lemma Touched(pat: string, repl: string) returns (s: string)
    requires Reoccurs(pat, repl)
    ensures Find(s, pat) != -1 && !StepsClear(s, pat, repl)
  {
    var a: nat, b: nat, j: nat :| a <= |pat| && b <= |pat| && j < a + |repl| && ReoccursAt(pat, repl, a, b, j);
    s := TouchedAt(pat, repl, a, b, j);
  }

  lemma StepIsClear(s: string, pat: string, repl: string)
    requires Find(s, pat) != -1 && !Reoccurs(pat, repl)
    ensures StepsClear(s, pat, repl)
  {
    if !StepsClear(s, pat, repl) {
      var a, b, j := TouchedReoccurs(s, pat, repl);
    }
  }

  lemma {:induction false} AlwaysClear(srcLen: nat, s: string, pat: string, repl: string, k: nat)
    requires !Reoccurs(pat, repl)
    ensures Clear(srcLen, s, pat, repl, k)
    decreases k
  {
    if k > 0 && Find(s, pat) != -1 {
      StepIsClear(s, pat, repl);
      AlwaysClear(srcLen, ReplaceAt(s, Find(s, pat), pat, repl), pat, repl, k - 1);
    }
  }

  lemma NotClear(s: string, pat: string, repl: string)
    requires Find(s, pat) != -1 && !StepsClear(s, pat, repl)
    ensures !Clear(|s| + Max(|pat|, |repl|) + 2, s, pat, repl, 1)
  {
  }

  // No replacement ever touches what an earlier one has inserted, whatever the text and the
  // buffer, if and only if the pattern cannot reoccur.
  lemma ClearIff(pat: string, repl: string)
    ensures (forall srcLen, s, k :: Clear(srcLen, s, pat, repl, k)) <==> !Reoccurs(pat, repl)
  {
    if Reoccurs(pat, repl) {
      var s := Touched(pat, repl);
      NotClear(s, pat, repl);
    } else {
      forall srcLen, s, k ensures Clear(srcLen, s, pat, repl, k) {
        AlwaysClear(srcLen, s, pat, repl, k);
      }
    }
  }

  // ---------- Agreement with one left-to-right pass ----------

  // The usual meaning of "replace all": one pass that never looks at what it has inserted.
  ghost function ReplaceAll(s: string, pat: string, repl: string): string
    requires pat != []
    decreases |s|
  {
    var i := Find(s, pat);
    if i == -1 then s else s[..i] + repl + ReplaceAll(s[i + |pat|..], pat, repl)
  }

  // Every occurrence of the pattern in done + todo lies inside todo.
  ghost predicate Settled(done: string, todo: string, pat: string) {
    forall j :: OccursAt(done + todo, pat, j) ==> |done| <= j
  }

  lemma InTodo(done: string, todo: string, pat: string, j: nat)
    ensures OccursAt(todo, pat, j) <==> OccursAt(done + todo, pat, |done| + j)
  {
    if j + |pat| <= |todo| {
      assert (done + todo)[|done| + j..|done| + j + |pat|] == todo[j..j + |pat|];
    }
  }

  lemma SettledFind(done: string, todo: string, pat: string)
    requires Settled(done, todo, pat)
    ensures Find(done + todo, pat) == if Find(todo, pat) == -1 then -1 else |done| + Find(todo, pat)
  {
    var i, k := Find(todo, pat), Find(done + todo, pat);
    if k != -1 {
      InTodo(done, todo, pat, k - |done|);
    }
    if i != -1 {
      InTodo(done, todo, pat, i);
    }
  }

  lemma ReplaceBehind(done: string, todo: string, i: nat, pat: string, repl: string)
    requires OccursAt(todo, pat, i) && OccursAt(done + todo, pat, |done| + i)
    ensures ReplaceAt(done + todo, |done| + i, pat, repl) == done + todo[..i] + repl + todo[i + |pat|..]
  {
  }

  // The replacement becomes part of what is done.
  lemma SettledStep(done: string, todo: string, pat: string, repl: string)
    requires Settled(done, todo, pat) && Find(todo, pat) != -1 && !Reoccurs(pat, repl)
    ensures var i := Find(todo, pat);
            Settled(done + todo[..i] + repl, todo[i + |pat|..], pat)
  {
    SettledFind(done, todo, pat);
    ReplaceBehind(done, todo, Find(todo, pat), pat, repl);
    StepIsClear(done + todo, pat, repl);
  }

  lemma Associate(a: string, b: string, c: string, d: string)
    ensures a + (b + c + d) == a + b + c + d
  {
    assert a + (b + c + d) == a + (b + c) + d;
    assert a + (b + c) == a + b + c;
  }

  lemma ReplaceAllFirst(s: string, x: string, y: string, pat: string, repl: string)
    requires pat != [] && Find(s, pat) != -1 && x == s[..Find(s, pat)] && y == s[Find(s, pat) + |pat|..]
    ensures ReplaceAll(s, pat, repl) == x + repl + ReplaceAll(y, pat, repl)
  {
  }

  lemma ReplaceAllBehind(done: string, todo: string, pat: string, repl: string)
    requires pat != [] && Find(todo, pat) != -1
    ensures var i := Find(todo, pat);
            done + ReplaceAll(todo, pat, repl) == done + todo[..i] + repl + ReplaceAll(todo[i + |pat|..], pat, repl)
  {
    var i := Find(todo, pat);
    var x, y := todo[..i], todo[i + |pat|..];
    ReplaceAllFirst(todo, x, y, pat, repl);
    Associate(done, x, repl, ReplaceAll(y, pat, repl));
  }

  // One replacement of the loop.
  lemma LoopStep(srcLen: nat, s: string, s': string, pat: string, repl: string)
    requires Find(s, pat) != -1 && pat != repl && !NoRoom(srcLen, s, pat, repl)
    requires s' == ReplaceAt(s, Find(s, pat), pat, repl)
    ensures var o := Loop(srcLen, s, pat, repl);
            if Find(s', pat) == -1 then o.rc == 0 && o.text == s'
            else o.rc == Loop(srcLen, s', pat, repl).rc && o.text == Loop(srcLen, s', pat, repl).text
  {
  }

  // One round of the loop, with the text in two parts: what is done, and what is still to be searched.
  lemma OneRound(srcLen: nat, done: string, todo: string, done': string, todo': string, pat: string, repl: string)
    requires pat != [] && pat != repl && !Reoccurs(pat, repl) && Settled(done, todo, pat)
    requires Find(todo, pat) != -1 && !NoRoom(srcLen, done + todo, pat, repl)
    requires done' == done + todo[..Find(todo, pat)] + repl && todo' == todo[Find(todo, pat) + |pat|..]
    ensures Settled(done', todo', pat) && Find(done + todo, pat) != -1
    ensures done' + todo' == ReplaceAt(done + todo, Find(done + todo, pat), pat, repl)
  {
    SettledFind(done, todo, pat);
    ReplaceBehind(done, todo, Find(todo, pat), pat, repl);
    SettledStep(done, todo, pat, repl);
  }

  lemma LastRound(done: string, todo: string, pat: string, repl: string)
    requires pat != [] && Settled(done, todo, pat) && Find(done + todo, pat) == -1
    ensures done + ReplaceAll(todo, pat, repl) == done + todo
  {
    SettledFind(done, todo, pat);
  }

  lemma {:induction false} LoopIsReplaceAll(srcLen: nat, done: string, todo: string, pat: string, repl: string)
    requires pat != [] && pat != repl && !Reoccurs(pat, repl) && Settled(done, todo, pat)
    requires Find(done + todo, pat) != -1
    ensures var o := Loop(srcLen, done + todo, pat, repl);
            o.rc == 0 ==> o.text == done + ReplaceAll(todo, pat, repl)
    decreases |todo|, 1
  {
    SettledFind(done, todo, pat);
    if !NoRoom(srcLen, done + todo, pat, repl) {
      var i := Find(todo, pat);
      LoopGoesOn(srcLen, done, todo, done + todo[..i] + repl, todo[i + |pat|..], pat, repl);
    }
  }

  lemma {:induction false} LoopGoesOn(srcLen: nat, done: string, todo: string, done': string, todo': string, pat: string, repl: string)
    requires pat != [] && pat != repl && !Reoccurs(pat, repl) && Settled(done, todo, pat)
    requires Find(todo, pat) != -1 && Find(done + todo, pat) != -1 && !NoRoom(srcLen, done + todo, pat, repl)
    requires done' == done + todo[..Find(todo, pat)] + repl && todo' == todo[Find(todo, pat) + |pat|..]
    ensures var o := Loop(srcLen, done + todo, pat, repl);
            o.rc == 0 ==> o.text == done + ReplaceAll(todo, pat, repl)
    decreases |todo|, 0
  {
    OneRound(srcLen, done, todo, done', todo', pat, repl);
    ReplaceAllBehind(done, todo, pat, repl);
    LoopStep(srcLen, done + todo, done' + todo', pat, repl);
    if Find(done' + todo', pat) != -1 {
      LoopIsReplaceAll(srcLen, done', todo', pat, repl);
    } else {
      LastRound(done', todo', pat, repl);
    }
  }

  // Where the pattern cannot reoccur, rescanning from the start computes the usual "replace all".
  lemma ClearIsReplaceAll(srcLen: nat, s: string, pat: string, repl: string)
    requires pat != [] && pat != repl && !Reoccurs(pat, repl)
    ensures Replace(srcLen, s, pat, repl).rc == 0 ==> Replace(srcLen, s, pat, repl).text == ReplaceAll(s, pat, repl)
  {
    if Find(s, pat) != -1 {
      assert [] + s == s && [] + ReplaceAll(s, pat, repl) == ReplaceAll(s, pat, repl);
      LoopIsReplaceAll(srcLen, [], s, pat, repl);
    }
  }

  lemma {:induction false} PassClears(done: string, todo: string, pat: string, repl: string)
    requires pat != [] && !Reoccurs(pat, repl) && Settled(done, todo, pat)
    ensures !Occurs(done + ReplaceAll(todo, pat, repl), pat)
    decreases |todo|
  {
    SettledFind(done, todo, pat);
    var i := Find(todo, pat);
    if i != -1 {
      ReplaceAllBehind(done, todo, pat, repl);
      SettledStep(done, todo, pat, repl);
      PassClears(done + todo[..i] + repl, todo[i + |pat|..], pat, repl);
    }
  }

  lemma PassOverOne(u: string, pat: string, v: string, repl: string)
    requires pat != [] && Find(u + pat + v, pat) == |u| && |v| < |pat|
    ensures ReplaceAll(u + pat + v, pat, repl) == u + repl + v
  {
    var s := u + pat + v;
    assert s[..|u|] == u && s[|u| + |pat|..] == v;
    assert Find(v, pat) == -1;
  }

  lemma LeavesAt(pat: string, repl: string, a: nat, b: nat, j: nat) returns (s: string)
    requires ReoccursAt(pat, repl, a, b, j) && b < |pat|
    ensures Occurs(ReplaceAll(s, pat, repl), pat)
  {
    var u, v := pat[..a], pat[|pat| - b..];
    s := u + pat + v;
    PassOverOne(u, pat, v, repl);
    assert OccursAt(u + repl + v, pat, j);
  }

  // A text on which one pass leaves the pattern behind.
  lemma PassLeaves(pat: string, repl: string) returns (s: string)
    requires pat != [] && Reoccurs(pat, repl)
    ensures Occurs(ReplaceAll(s, pat, repl), pat)
  {
    var touched := Touched(pat, repl);
    var a, b, j := TouchedReoccurs(touched, pat, repl);
    s := LeavesAt(pat, repl, a, b, j);
  }

  ghost predicate PassSuffices(s: string, pat: string, repl: string)
    requires pat != []
  {
    !Occurs(ReplaceAll(s, pat, repl), pat)
  }

  // One pass leaves no occurrence behind in any text if and only if the pattern cannot reoccur.
  // The rescanning loop returns 0 only when none is left, so otherwise there is a text on which
  // it either disagrees with one pass or does not return 0.
  lemma OnePassIff(pat: string, repl: string)
    requires pat != []
    ensures (forall s :: PassSuffices(s, pat, repl)) <==> !Reoccurs(pat, repl)
  {
    if Reoccurs(pat, repl) {
      var s := PassLeaves(pat, repl);
      assert !PassSuffices(s, pat, repl);
    } else {
      forall s ensures PassSuffices(s, pat, repl) {
        assert [] + s == s && [] + ReplaceAll(s, pat, repl) == ReplaceAll(s, pat, repl);
        PassClears([], s, pat, repl);
      }
    }
  }

  // ---------- Two uses ----------

  predicate Disjoint(pat: string, repl: string) {
    forall c :: c in repl ==> c !in pat
  }

  lemma ReoccursShares(pat: string, repl: string, a: nat, b: nat, j: nat)
    requires pat != [] && repl != [] && ReoccursAt(pat, repl, a, b, j)
    ensures !Disjoint(pat, repl)
  {
    var u, v := pat[..a], pat[|pat| - b..];
    NotInFront(u, pat, v, repl, j);
    var c := if j < a then a else j;
    var t := u + repl + v;
    assert t[c] == repl[c - a] && t[c] == t[j..j + |pat|][c - j] == pat[c - j];
    assert repl[c - a] in repl && pat[c - j] in pat;
  }

  // A replacement that shares no character with the pattern is never touched again.
  lemma DisjointIsClear(pat: string, repl: string)
    requires pat != [] && repl != [] && Disjoint(pat, repl)
    ensures !Reoccurs(pat, repl)
  {
    forall a, b, j | 0 <= a <= |pat| && 0 <= b <= |pat| && 0 <= j < a + |repl| ensures !ReoccursAt(pat, repl, a, b, j) {
      if ReoccursAt(pat, repl, a, b, j) {
        ReoccursShares(pat, repl, a, b, j);
      }
    }
  }

  const GROUP := "%g"

  lemma OccursGroup(s: string, j: int)
    ensures OccursAt(s, GROUP, j) <==> 0 <= j && j + 2 <= |s| && s[j] == '%' && s[j + 1] == 'g'
  {
    if 0 <= j && j + 2 <= |s| {
      assert s[j..j + 2] == [s[j], s[j + 1]];
    }
  }

  lemma FindGroup(s: string, i: nat)
    requires i + 2 <= |s| && s[i] == '%' && s[i + 1] == 'g' && forall j :: 0 <= j <= i ==> s[j] != 'g'
    ensures Find(s, GROUP) == i
  {
    OccursGroup(s, i);
    forall j | 0 <= j < i ensures !OccursAt(s, GROUP, j) {
      OccursGroup(s, j);
    }
  }

  // A text in the surroundings of ReoccursAt.
  function Between(a: nat, mid: string, b: nat): (t: string)
    requires a <= 2 && b <= 2
    ensures |t| == a + |mid| + b
    ensures a >= 1 ==> t[0] == '%'
    ensures a == 2 ==> t[1] == 'g'
    ensures forall x :: a <= x < a + |mid| ==> t[x] == mid[x - a]
    ensures b >= 1 ==> t[|t| - 1] == 'g'
    ensures b == 2 ==> t[|t| - 2] == '%'
  {
    GROUP[..a] + mid + GROUP[2 - b..]
  }

  lemma AtMostOne(a: nat, b: nat)
    requires a <= 2 && b <= 2 && Find(Between(a, GROUP, b), GROUP) == a
    ensures a <= 1
  {
    OccursGroup(Between(a, GROUP, b), 0);
  }

  lemma GroupReoccursAt(name: string, a: nat, b: nat, j: nat)
    requires ReoccursAt(GROUP, name, a, b, j)
    ensures name == "" || name[0] == 'g' || name[|name| - 1] == '%' || Occurs(name, GROUP)
  {
    AtMostOne(a, b);
    OccursGroup(Between(a, name, b), j);
    if j >= a {
      OccursGroup(name, j - a);
    }
  }

  lemma GroupReoccursIn(name: string, a: nat, b: nat, j: nat)
    requires a <= 1 && b <= 1 && j < a + |name| && j + 2 <= a + |name| + b
    requires Between(a, name, b)[j] == '%' && Between(a, name, b)[j + 1] == 'g'
    ensures ReoccursAt(GROUP, name, a, b, j)
  {
    FindGroup(Between(a, GROUP, b), a);
    OccursGroup(Between(a, name, b), j);
  }

  lemma GroupReoccurs(name: string) returns (a: nat, b: nat, j: nat)
    requires name == "" || name[0] == 'g' || name[|name| - 1] == '%' || Occurs(name, GROUP)
    ensures ReoccursAt(GROUP, name, a, b, j)
  {
    if name == "" {
      a, b, j := 1, 1, 0;
    } else if name[0] == 'g' {
      a, b, j := 1, 0, 0;
    } else if name[|name| - 1] == '%' {
      a, b, j := 0, 1, |name| - 1;
    } else {
      a, b := 0, 0;
      j :| OccursAt(name, GROUP, j);
      OccursGroup(name, j);
    }
    GroupReoccursIn(name, a, b, j);
  }

  // The one caller puts a group name in place of "%g". Exactly these names are touched again.
  lemma GroupNames(name: string)
    ensures Reoccurs(GROUP, name) <==>
              name == "" || name[0] == 'g' || name[|name| - 1] == '%' || Occurs(name, GROUP)
  {
    if Reoccurs(GROUP, name) {
      var a: nat, b: nat, j: nat :| a <= 2 && b <= 2 && j < a + |name| && ReoccursAt(GROUP, name, a, b, j);
      GroupReoccursAt(name, a, b, j);
    } else if name == "" || name[0] == 'g' || name[|name| - 1] == '%' || Occurs(name, GROUP) {
      var a, b, j := GroupReoccurs(name);
    }
  }

  lemma TwoRounds(srcLen: nat, s: string, s1: string, s2: string, pat: string, repl: string)
    requires pat != repl && Find(s, pat) != -1 && s1 == ReplaceAt(s, Find(s, pat), pat, repl)
    requires Find(s1, pat) != -1 && s2 == ReplaceAt(s1, Find(s1, pat), pat, repl) && Find(s2, pat) == -1
    requires !NoRoom(srcLen, s, pat, repl) && !NoRoom(srcLen, s1, pat, repl)
    ensures Replace(srcLen, s, pat, repl) == Outcome(0, s2, 2)
  {
    assert Loop(srcLen, s1, pat, repl) == Outcome(0, s2, 1);
  }

  // Names like "group", in a text with two percent signs.
  predicate TwoPercent(s: string, name: string) {
    && |s| == 3 && s[0] == '%' && s[1] == '%' && s[2] == 'g'
    && name != [] && name[0] == 'g' && '%' !in name
  }

  lemma FirstRound(s: string, name: string)
    requires TwoPercent(s, name)
    ensures Find(s, GROUP) == 1 && ReplaceAt(s, 1, GROUP, name) == ['%'] + name
  {
    FindGroup(s, 1);
  }

  lemma SecondRound(onePass: string, name: string)
    requires onePass == ['%'] + name && name != [] && name[0] == 'g'
    ensures Find(onePass, GROUP) == 0 && ReplaceAt(onePass, 0, GROUP, name) == name + name[1..]
  {
    FindGroup(onePass, 0);
  }

  lemma NoPercent(s: string)
    requires '%' !in s
    ensures Find(s, GROUP) == -1
  {
    forall j ensures !OccursAt(s, GROUP, j) {
      OccursGroup(s, j);
    }
  }

  lemma GroupOnePass(s: string, name: string)
    requires TwoPercent(s, name)
    ensures ReplaceAll(s, GROUP, name) == ['%'] + name
  {
    FirstRound(s, name);
    var u: string, v: string := ['%'], [];
    assert s == u + GROUP + v;
    PassOverOne(u, GROUP, v, name);
  }

  // One pass gives "%group", and rescanning then replaces the "%g" that this makes.
  lemma GroupRescanned(srcLen: nat, s: string, name: string)
    requires TwoPercent(s, name) && srcLen >= 2 * |name| + 5
    ensures ReplaceAll(s, GROUP, name) == ['%'] + name
    ensures Replace(srcLen, s, GROUP, name) == Outcome(0, name + name[1..], 2)
  {
    var onePass := ['%'] + name;
    GroupOnePass(s, name);
    FirstRound(s, name);
    SecondRound(onePass, name);
    NoPercent(name + name[1..]);
    TwoRounds(srcLen, s, onePass, name + name[1..], GROUP, name);
  }

  // ---------- The buffer ----------

  predicate CString(a: seq<char>) {
    '\0' in a
  }

  // The characters before the first NUL.
  function Text(a: seq<char>): (t: string)
    requires CString(a)
    ensures |t| < |a| && t <= a && a[|t|] == '\0' && '\0' !in t
  {
    if a[0] == '\0' then [] else [a[0]] + Text(a[1..])
  }

  lemma {:induction false} TextIs(a: seq<char>, t: string)
    requires |t| < |a| && a[..|t|] == t && a[|t|] == '\0' && '\0' !in t
    ensures CString(a) && Text(a) == t
    decreases |t|
  {
  }

  method StrLen(a: array<char>) returns (l: nat)
    requires CString(a[..])
    ensures l == |Text(a[..])|
  {
    l := 0;
    while a[l] != '\0'
      invariant l <= |Text(a[..])|
      decreases |Text(a[..])| - l
    {
      l := l + 1;
    }
  }

  // memmove within one buffer: the source is read as it was, even if the ranges overlap.
  method MemMove(a: array<char>, dst: nat, src: nat, n: nat)
    requires dst + n <= a.Length && src + n <= a.Length
    modifies a
    ensures a[..] == old(a[..dst] + a[src..src + n] + a[dst + n..])
  {
    var copy := a[src..src + n];
    forall i | 0 <= i < n {
      a[dst + i] := copy[i];
    }
  }

  method MemCpy(a: array<char>, dst: nat, s: string)
    requires dst + |s| <= a.Length
    modifies a
    ensures a[..] == old(a[..dst]) + s + old(a[dst + |s|..])
  {
    forall i | 0 <= i < |s| {
      a[dst + i] := s[i];
    }
  }

  // What memmove leaves where.
  predicate Moved(was: seq<char>, mid: seq<char>, of: nat, l: nat, pl: nat, rl: nat)
    requires of + pl <= l < |was| && l + rl - pl + 1 <= |was|
  {
    && |mid| == |was|
    && mid[..of] == was[..of]
    && mid[of + rl..l + rl - pl + 1] == was[of + pl..l + 1]
    && mid[l + rl - pl + 1..] == was[l + rl - pl + 1..]
  }

  // Makes the gap at `of` as wide as the replacement, moving the terminating NUL along.
  method Shift(src: array<char>, of: nat, l: nat, pl: nat, rl: nat)
    requires of + pl <= l < src.Length && l + rl + 1 <= src.Length
    modifies src
    ensures Moved(old(src[..]), src[..], of, l, pl, rl)
  {
    if rl != pl {
      MemMove(src, of + rl, of + pl, l - of - pl + 1);
    }
  }

  // The buffer in pieces: the front, the replacement, what followed the pattern, and the rest.
  predicate Pieces(was: seq<char>, now: seq<char>, of: nat, l: nat, pl: nat, repl: string)
    requires of + pl <= l < |was| && l + |repl| + 1 <= |was|
  {
    var k := l + |repl| - pl;
    && |now| == |was|
    && now[..k] == was[..of] + repl + was[of + pl..l] && now[k] == was[l] && now[k + 1..] == was[k + 1..]
  }

  lemma CopiedPieces(was: seq<char>, mid: seq<char>, now: seq<char>, of: nat, l: nat, pl: nat, repl: string)
    requires of + pl <= l < |was| && l + |repl| + 1 <= |was| && Moved(was, mid, of, l, pl, |repl|)
    requires now == mid[..of] + repl + mid[of + |repl|..]
    ensures Pieces(was, now, of, l, pl, repl)
  {
    var rl := |repl|;
    var k := l + rl - pl;
    forall x | of + rl <= x <= k ensures now[x] == was[x - rl + pl] {
      assert mid[x] == mid[of + rl..k + 1][x - of - rl];
      assert was[x - rl + pl] == was[of + pl..l + 1][x - of - rl];
    }
    forall x | k < x < |was| ensures now[x] == was[x] {
      assert mid[x] == mid[k + 1..][x - k - 1];
    }
    forall x | 0 <= x < of ensures now[x] == was[x] {
      assert mid[x] == mid[..of][x];
    }
  }

  lemma TailsAgree(x: seq<char>, y: seq<char>, i: nat, j: nat)
    requires i <= j <= |x| == |y| && x[i..] == y[i..]
    ensures x[j..] == y[j..]
  {
  }

  lemma TextFront(a: seq<char>, t: string, k: nat)
    requires k <= |t| <= |a| && t <= a
    ensures a[..k] == t[..k]
  {
  }

  lemma TextBack(a: seq<char>, t: string, k: nat)
    requires k <= |t| <= |a| && t <= a
    ensures a[k..|t|] == t[k..]
  {
  }

  lemma NewText(now: seq<char>, k: nat, t: string)
    requires k < |now| && now[..k] == t && now[k] == '\0' && '\0' !in t
    ensures CString(now) && Text(now) == t
  {
    TextIs(now, t);
  }

  // What the two copies amount to.
  lemma ReplacedText(was: seq<char>, now: seq<char>, srcLen: nat, of: nat, pat: string, repl: string)
    requires srcLen <= |was| && CString(was) && OccursAt(Text(was), pat, of)
    requires '\0' !in repl && !NoRoom(srcLen, Text(was), pat, repl)
    requires Pieces(was, now, of, |Text(was)|, |pat|, repl)
    ensures CString(now) && Text(now) == ReplaceAt(Text(was), of, pat, repl)
    ensures now[srcLen..] == was[srcLen..]
  {
    var t := Text(was);
    var k := |t| + |repl| - |pat|;
    TextFront(was, t, of);
    TextBack(was, t, of + |pat|);
    NewText(now, k, ReplaceAt(t, of, pat, repl));
    TailsAgree(now, was, k + 1, srcLen);
  }

  // One replacement in place; nothing at or past srcLen is touched.
  method ReplaceInPlace(src: array<char>, srcLen: nat, of: nat, pat: string, repl: string)
    requires srcLen <= src.Length && CString(src[..]) && OccursAt(Text(src[..]), pat, of)
    requires '\0' !in repl && !NoRoom(srcLen, Text(src[..]), pat, repl)
    modifies src
    ensures CString(src[..]) && Text(src[..]) == old(ReplaceAt(Text(src[..]), of, pat, repl))
    ensures src[srcLen..] == old(src[srcLen..])
  {
    ghost var was := src[..];
    var l := StrLen(src);
    Shift(src, of, l, |pat|, |repl|);
    ghost var mid := src[..];
    MemCpy(src, of, repl);
    CopiedPieces(was, mid, src[..], of, l, |pat|, repl);
    ReplacedText(was, src[..], srcLen, of, pat, repl);
    assert src[srcLen..] == src[..][srcLen..];
  }

  // The C function, on every input for which it comes back.
  method StrReplace(src: array<char>, srcLen: nat, pat: string, repl: string) returns (rc: int, replaced: bool)
    requires srcLen <= src.Length && CString(src[..])
    requires '\0' !in pat && '\0' !in repl
    requires Stops(srcLen, Text(src[..]), pat, repl)
    modifies src
    ensures CString(src[..])
    ensures var o := old(Replace(srcLen, Text(src[..]), pat, repl));
            rc == o.rc && Text(src[..]) == o.text && replaced == (o.rounds > 0)
    ensures rc == 0 || rc == -1
    // nothing to replace
    ensures !old(Occurs(Text(src[..]), pat)) ==> rc == -1 && !replaced
    // the first replacement is made exactly when there is room for it
    ensures replaced <==>
              && old(Occurs(Text(src[..]), pat))
              && srcLen > old(|Text(src[..])|) + |pat| + 1
              && srcLen > old(|Text(src[..])|) + |repl| + 1
    ensures !replaced ==> src[..] == old(src[..])
    // 0 says that there was something to replace and nothing is left, -1 otherwise that there is no room
    ensures rc == 0 <==> old(Occurs(Text(src[..]), pat)) && !Occurs(Text(src[..]), pat)
    ensures rc == -1 && Occurs(Text(src[..]), pat) ==>
              srcLen <= |Text(src[..])| + |pat| + 1 || srcLen <= |Text(src[..])| + |repl| + 1
    ensures src[srcLen..] == old(src[srcLen..])
  {
    replaced := false;
    var of := Find(Text(src[..]), pat);
    if of == -1 {
      return -1, replaced;
    }
    ghost var s0 := Text(src[..]);
    LoopMeaning(srcLen, s0, pat, repl);
    ghost var rounds := 0;
    while true
      invariant CString(src[..]) && of == Find(Text(src[..]), pat) && of != -1
      invariant pat != repl || NoRoom(srcLen, Text(src[..]), pat, repl)
      invariant replaced == (rounds > 0) && rounds >= 0
      invariant !replaced ==> src[..] == old(src[..])
      invariant var o := Loop(srcLen, Text(src[..]), pat, repl);
                Loop(srcLen, s0, pat, repl) == o.(rounds := o.rounds + rounds)
      invariant src[srcLen..] == old(src[srcLen..])
      decreases if pat == repl || NoRoom(srcLen, Text(src[..]), pat, repl) then 0 else 1,
                if pat == repl then 0 else Fuel(srcLen, Text(src[..]), pat, repl)
    {
      ghost var s := Text(src[..]);
      var l := StrLen(src);
      if srcLen <= l + Max(|pat|, |repl|) + 1 {
        return -1, replaced;
      }
      ReplacementUsesFuel(srcLen, s, of, pat, repl);
      ReplaceInPlace(src, srcLen, of, pat, repl);
      rounds := rounds + 1;
      replaced := true;
      of := Find(Text(src[..]), pat);
      if of == -1 {
        return 0, replaced;
      }
    }
  }
}
