/**
 cmocka's group runner: it selects the tests whose names pass the two filters, runs each with
 its setup and teardown, and adds up the results. What the test code itself does is given.
 */
module GroupRunner {
  import opened GlobMatch
  import opened Wrappers

  // What a test or fixture function does: return normally, fail (or return non-zero), or call
  // skip(), which raises a global flag before it leaves.
  datatype Behaviour = Ok | Fails | Skips

  // A null name, or no function at all, marks an entry that is ignored.
  datatype Test = Test(
    name: CString,
    setup: Option<Behaviour>,
    test: Option<Behaviour>,
    teardown: Option<Behaviour>)

  datatype Status = Passed | Failed | Skipped | Error

  datatype Totals = Totals(passed: nat, failed: nat, skipped: nat, errors: nat)

  // ---------- One test ----------

  // Running a function: its return code is zero or not, and skip() leaves the flag raised.
  function Flag(skip: bool, f: Option<Behaviour>): bool {
    skip || f == Some(Skips)
  }

  predicate Good(f: Option<Behaviour>) {
    f == None || f == Some(Ok)
  }

  // cmocka_run_one_tests: the status of a test and the skip flag it leaves behind.
  function RunOne(t: Test, skip: bool): (Status, bool) {
    if !Good(t.setup) then (Error, Flag(skip, t.setup))
    else
      var skip1 := Flag(skip, t.test);
      var (status, skip2) :=
        if Good(t.test) then (Passed, skip1)
        else if skip1 then (Skipped, false)
        else (Failed, skip1);
      if Good(t.teardown) then (status, skip2) else (Error, Flag(skip2, t.teardown))
  }

  function Statuses(ts: seq<Test>, skip: bool): (r: seq<Status>)
    ensures |r| == |ts|
  {
    if ts == [] then []
    else
      var (status, skip') := RunOne(ts[0], skip);
      [status] + Statuses(ts[1..], skip')
  }

  // The skip flag after the tests.
  function FlagAfter(ts: seq<Test>, skip: bool): bool {
    if ts == [] then skip else FlagAfter(ts[1..], RunOne(ts[0], skip).1)
  }

  function Count(ss: seq<Status>, s: Status): nat {
    if ss == [] then 0 else (if ss[0] == s then 1 else 0) + Count(ss[1..], s)
  }

  function Tally(ss: seq<Status>): Totals {
    Totals(Count(ss, Passed), Count(ss, Failed), Count(ss, Skipped), Count(ss, Error))
  }

  // ---------- Selection ----------

  ghost predicate Selected(t: Test, filter: CString, skipFilter: CString) {
    && t.name.Text?
    && (t.test.Some? || t.setup.Some? || t.teardown.Some?)
    && (filter.Text? ==> Accepts(t.name.chars, filter.chars))
    && (skipFilter.Text? ==> !Accepts(t.name.chars, skipFilter.chars))
  }

  // The selected tests, in order.
  ghost function Selection(ts: seq<Test>, filter: CString, skipFilter: CString): seq<Test> {
    if ts == [] then []
    else
      var t := ts[|ts| - 1];
      Selection(ts[..|ts| - 1], filter, skipFilter) + if Selected(t, filter, skipFilter) then [t] else []
  }

  // Exactly the tests that pass both filters are selected.
  lemma {:induction false} SelectionMembers(ts: seq<Test>, filter: CString, skipFilter: CString, t: Test)
    ensures t in Selection(ts, filter, skipFilter) <==>
              && t in ts
              && t.name != Null
              && (t.setup != None || t.test != None || t.teardown != None)
              && (filter != Null ==> Accepts(t.name.chars, filter.chars))
              && (skipFilter != Null ==> !Accepts(t.name.chars, skipFilter.chars))
    decreases |ts|
  {
    if ts != [] {
      var rest, last := ts[..|ts| - 1], ts[|ts| - 1];
      assert ts == rest + [last];
      SelectionMembers(rest, filter, skipFilter, t);
    }
  }

  method Select(ts: seq<Test>, filter: CString, skipFilter: CString) returns (chosen: seq<Test>)
    ensures chosen == Selection(ts, filter, skipFilter)
  {
    chosen := [];
    for i := 0 to |ts|
      invariant chosen == Selection(ts[..i], filter, skipFilter)
    {
      var t := ts[i];
      assert ts[..i + 1][..i] == ts[..i];
      if t.name.Text? && (t.test.Some? || t.setup.Some? || t.teardown.Some?) {
        var take := true;
        if filter.Text? {
          take := MatchNames(t.name, filter);
        }
        if take && skipFilter.Text? {
          var match_ := MatchNames(t.name, skipFilter);
          take := !match_;
        }
        if take {
          chosen := chosen + [t];
        }
      }
    }
    assert ts[..|ts|] == ts;
  }

  // ---------- The tests of a group ----------

  // Running one test more.
  lemma {:induction false} OneMore(ts: seq<Test>, skip: bool, i: nat)
    requires i < |ts|
    ensures var (status, after) := RunOne(ts[i], FlagAfter(ts[..i], skip));
            Statuses(ts, skip)[i] == status && FlagAfter(ts[..i + 1], skip) == after
    decreases i
  {
    if i > 0 {
      assert ts[..i][1..] == ts[1..][..i - 1] && ts[..i + 1][1..] == ts[1..][..i];
      OneMore(ts[1..], RunOne(ts[0], skip).1, i - 1);
    } else {
      assert ts[..0] == [] && ts[..1][1..] == [];
    }
  }

  lemma {:induction false} CountSnoc(ss: seq<Status>, x: Status, s: Status)
    ensures Count(ss + [x], s) == Count(ss, s) + if x == s then 1 else 0
    decreases |ss|
  {
    if ss == [] {
      assert ss + [x] == [x];
    } else {
      assert (ss + [x])[1..] == ss[1..] + [x];
      CountSnoc(ss[1..], x, s);
    }
  }

  lemma CountOneMore(ss: seq<Status>, i: nat)
    requires i < |ss|
    ensures forall s :: Count(ss[..i + 1], s) == Count(ss[..i], s) + if ss[i] == s then 1 else 0
  {
    assert ss[..i + 1] == ss[..i] + [ss[i]];
    forall s ensures Count(ss[..i + 1], s) == Count(ss[..i], s) + if ss[i] == s then 1 else 0 {
      CountSnoc(ss[..i], ss[i], s);
    }
  }

  lemma {:induction false} ZeroCount(ss: seq<Status>, s: Status)
    ensures Count(ss, s) == 0 <==> forall i :: 0 <= i < |ss| ==> ss[i] != s
    decreases |ss|
  {
    if ss != [] {
      ZeroCount(ss[1..], s);
      assert forall i :: 1 <= i < |ss| ==> ss[i] == ss[1..][i - 1];
    }
  }

  // The loop over the selected tests.
  method RunTests(ts: seq<Test>, skip: bool) returns (executed: nat, totals: Totals, skip': bool)
    ensures executed == |ts| && totals == Tally(Statuses(ts, skip)) && skip' == FlagAfter(ts, skip)
    ensures executed == totals.passed + totals.failed + totals.skipped + totals.errors
  {
    ghost var all := Statuses(ts, skip);
    executed, totals, skip' := 0, Totals(0, 0, 0, 0), skip;
    while executed < |ts|
      invariant executed <= |ts|
      invariant skip' == FlagAfter(ts[..executed], skip)
      invariant totals == Tally(all[..executed])
      invariant executed == totals.passed + totals.failed + totals.skipped + totals.errors
    {
      OneMore(ts, skip, executed);
      CountOneMore(all, executed);
      var (status, after) := RunOne(ts[executed], skip');
      match status {
        case Passed => totals := totals.(passed := totals.passed + 1);
        case Skipped => totals := totals.(skipped := totals.skipped + 1);
        case Failed => totals := totals.(failed := totals.failed + 1);
        case Error => totals := totals.(errors := totals.errors + 1);
      }
      executed, skip' := executed + 1, after;
    }
    assert ts[..executed] == ts && all[..executed] == all;
  }

  // ---------- What a status means ----------

  // After a failed setup neither the function nor the teardown has any effect.
  lemma FailedSetupEndsTest(t: Test, skip: bool)
    requires !(t.setup == None || t.setup == Some(Ok))
    ensures forall test, teardown :: RunOne(t.(test := test, teardown := teardown), skip) == RunOne(t, skip)
  {
  }

  // What a test deserves when looked at on its own.
  function OwnStatus(t: Test): Status {
    if !((t.setup == None || t.setup == Some(Ok)) && (t.teardown == None || t.teardown == Some(Ok))) then Error
    else if t.test == None || t.test == Some(Ok) then Passed
    else if t.test == Some(Skips) then Skipped
    else Failed
  }

  // ---------- A leftover skip flag hides failures ----------

  // Test i is reported as it deserves unless it fails while an earlier fixture's skip() is still
  // pending: then, and only then, the failure is reported as skipped.
  lemma HiddenFailure(ts: seq<Test>, skip: bool, i: nat)
    requires i < |ts|
    ensures var got, own := Statuses(ts, skip)[i], OwnStatus(ts[i]);
            if own == Failed && FlagAfter(ts[..i], skip) then got == Skipped else got == own
  {
    OneMore(ts, skip, i);
  }

  // The test leaves the flag raised whatever it was before.
  predicate Raises(t: Test) {
    t.setup == Some(Skips) || ((t.setup == None || t.setup == Some(Ok)) && t.teardown == Some(Skips))
  }

  // The test leaves a raised flag alone: its own function does not run to a failure.
  predicate Keeps(t: Test) {
    Raises(t) || !(t.setup == None || t.setup == Some(Ok)) || t.test == None || t.test == Some(Ok)
  }

  // The flag is pending before test i exactly when it was raised on entry or by the setup or
  // teardown of an earlier test, and no test in between has failed or skipped.
  ghost predicate Pending(ts: seq<Test>, skip: bool, i: nat)
    requires i <= |ts|
  {
    || (skip && forall k :: 0 <= k < i ==> Keeps(ts[k]))
    || exists j :: 0 <= j < i && Raises(ts[j]) && forall k :: j < k < i ==> Keeps(ts[k])
  }

  // The flag after one test.
  lemma FlagAfterOne(t: Test, skip: bool)
    ensures RunOne(t, skip).1 <==> Raises(t) || (skip && Keeps(t))
  {
  }

  lemma {:induction false} PendingMeaning(ts: seq<Test>, skip: bool, i: nat)
    requires i <= |ts|
    ensures FlagAfter(ts[..i], skip) <==> Pending(ts, skip, i)
    decreases i
  {
    if i == 0 {
      assert ts[..0] == [];
    } else {
      PendingMeaning(ts, skip, i - 1);
      OneMore(ts, skip, i - 1);
      var before, t := FlagAfter(ts[..i - 1], skip), ts[i - 1];
      FlagAfterOne(t, before);
      if Raises(t) {
        assert Pending(ts, skip, i);
      } else if before && Keeps(t) {
        if skip && forall k :: 0 <= k < i - 1 ==> Keeps(ts[k]) {
        } else {
          var j :| 0 <= j < i - 1 && Raises(ts[j]) && forall k :: j < k < i - 1 ==> Keeps(ts[k]);
          assert forall k :: j < k < i ==> Keeps(ts[k]);
        }
      }
    }
  }

  // The status of test i, from what its three functions do and from whether a skip() is pending.
  lemma StatusMeaning(ts: seq<Test>, skip: bool, i: nat)
    requires i < |ts|
    ensures var t, status := ts[i], Statuses(ts, skip)[i];
            var ready := t.setup == None || t.setup == Some(Ok);
            var cleaned := t.teardown == None || t.teardown == Some(Ok);
            var good := t.test == None || t.test == Some(Ok);
            && (status == Error <==> !ready || !cleaned)
            && (status == Passed <==> ready && cleaned && good)
            && (status == Skipped <==> ready && cleaned && !good && (t.test == Some(Skips) || Pending(ts, skip, i)))
            && (status == Failed <==> ready && cleaned && !good && t.test != Some(Skips) && !Pending(ts, skip, i))
  {
    OneMore(ts, skip, i);
    PendingMeaning(ts, skip, i);
  }

  // A test that does not count against the group: its fixtures are good, and its function is
  // good or skips or fails unseen.
  ghost predicate Excused(ts: seq<Test>, skip: bool, i: nat)
    requires i < |ts|
  {
    var t := ts[i];
    && (t.setup == None || t.setup == Some(Ok))
    && (t.teardown == None || t.teardown == Some(Ok))
    && (t.test == None || t.test == Some(Ok) || t.test == Some(Skips) || Pending(ts, skip, i))
  }

  lemma ExcusedMeaning(ts: seq<Test>, skip: bool)
    ensures Count(Statuses(ts, skip), Failed) + Count(Statuses(ts, skip), Error) == 0 <==>
              forall i: nat :: i < |ts| ==> Excused(ts, skip, i)
  {
    var ss := Statuses(ts, skip);
    ZeroCount(ss, Failed);
    ZeroCount(ss, Error);
    forall i: nat | i < |ts| ensures Excused(ts, skip, i) <==> ss[i] != Failed && ss[i] != Error {
      StatusMeaning(ts, skip, i);
    }
  }

  // ---------- The group ----------

  // The runner returns a number, or the leak check at its end exits the process.
  datatype Result = Returned(rc: nat) | Exited

  // _cmocka_run_group_tests. `skip` is the global flag on entry, `leaked` the number of blocks
  // that the group's code leaves allocated. The number returned is that of failures and errors; a
  // failed group setup is one error and runs nothing; the group teardown, whose result is only
  // printed, can still raise the flag.
  method RunGroup(ts: seq<Test>, filter: CString, skipFilter: CString, setup: Option<Behaviour>,
                  teardown: Option<Behaviour>, skip: bool, leaked: nat)
    returns (result: Result, executed: nat, totals: Totals, skip': bool)
    ensures var chosen := Selection(ts, filter, skipFilter);
            if setup == None || setup == Some(Ok) then
              && executed == |chosen|
              && totals == Tally(Statuses(chosen, skip))
              && skip' == (Pending(chosen, skip, |chosen|) || teardown == Some(Skips))
            else
              && executed == 0
              && totals == Totals(0, 0, 0, 1)
              && skip' == (skip || setup == Some(Skips) || teardown == Some(Skips))
    ensures setup == None || setup == Some(Ok) ==> executed == totals.passed + totals.failed + totals.skipped + totals.errors
    ensures result == if leaked > 0 then Exited else Returned(totals.failed + totals.errors)
    // success, in terms of what the functions of each test do
    ensures result == Returned(0) <==>
              && leaked == 0
              && (setup == None || setup == Some(Ok))
              && var chosen := Selection(ts, filter, skipFilter);
                 forall i: nat :: i < |chosen| ==> Excused(chosen, skip, i)
  {
    var chosen := Select(ts, filter, skipFilter);
    skip' := Flag(skip, setup);
    if Good(setup) {
      executed, totals, skip' := RunTests(chosen, skip');
      ExcusedMeaning(chosen, skip);
      PendingMeaning(chosen, skip, |chosen|);
      assert chosen[..|chosen|] == chosen;
    } else {
      executed, totals := 0, Totals(0, 0, 0, 1);
    }
    skip' := Flag(skip', teardown);
    result := if leaked > 0 then Exited else Returned(totals.failed + totals.errors);
  }
}
