/**
 * run_tests: run every loaded test in order, collect the names of the tests
 * whose diff is truthy, and report how many passed. The process outcome and
 * the opcodes of each run are inputs; a RuntimeError raised by the diff of
 * one run ends the whole run.
 */
module Runner {
  import opened Wrappers
  import opened TextDiff
  import opened TestCases
  import opened Loader
  import opened Subsequences

  /** What run_tests reports: the pass count, the number of tests and the failed names, in order. */
  datatype Summary = Summary(passed: int, total: nat, failed: seq<Json>)

  /** The all-passed branch of run_tests is taken exactly when no name was collected. */
  predicate AllPassed(s: Summary) {
    s.failed == []
  }

  /** The diffs the first n runs store, or the first RuntimeError. */
  function Diffs(cs: seq<TestCase>, outcomes: seq<Outcome>, opsList: seq<seq<Opcode>>, colour: bool, n: nat)
    : (r: Result<seq<Option<string>>, string>)
    requires n <= |cs| && |outcomes| == |cs| && |opsList| == |cs|
    ensures r.Success? ==> |r.value| == n
  {
    if n == 0 then Success([])
    else
      var init :- Diffs(cs, outcomes, opsList, colour, n - 1);
      var d :- Classify(outcomes[n - 1], cs[n - 1].expected, opsList[n - 1], colour);
      Success(init + [d])
  }

  /** The diffs are those the runs store, or the error of the first run that raises. */
  lemma {:induction false} DiffsSpec(cs: seq<TestCase>, outcomes: seq<Outcome>, opsList: seq<seq<Opcode>>, colour: bool, n: nat)
    requires n <= |cs| && |outcomes| == |cs| && |opsList| == |cs|
    ensures var r := Diffs(cs, outcomes, opsList, colour, n);
      && (r.Success? ==> forall k :: 0 <= k < n ==> Classify(outcomes[k], cs[k].expected, opsList[k], colour) == Success(r.value[k]))
      && (r.Failure? ==>
        exists k :: 0 <= k < n && Classify(outcomes[k], cs[k].expected, opsList[k], colour) == Failure(r.error)
          && forall m :: 0 <= m < k ==> Classify(outcomes[m], cs[m].expected, opsList[m], colour).Success?)
    decreases n
  {
    if n > 0 {
      DiffsSpec(cs, outcomes, opsList, colour, n - 1);
    }
  }

  /** The first run that raises decides the error of all later prefixes. */
  lemma {:induction false} DiffsAtFirstError(cs: seq<TestCase>, outcomes: seq<Outcome>, opsList: seq<seq<Opcode>>, colour: bool, i: nat, n: nat)
    requires i < n <= |cs| && |outcomes| == |cs| && |opsList| == |cs|
    requires Diffs(cs, outcomes, opsList, colour, i).Success?
    requires Classify(outcomes[i], cs[i].expected, opsList[i], colour).Failure?
    ensures Diffs(cs, outcomes, opsList, colour, n) == Failure(Classify(outcomes[i], cs[i].expected, opsList[i], colour).error)
    decreases n
  {
    if n > i + 1 {
      DiffsAtFirstError(cs, outcomes, opsList, colour, i, n - 1);
    }
  }

  /** The names of the tests whose diff is truthy, in order. */
  function FailedNames(cs: seq<TestCase>, diffs: seq<Option<string>>): (r: seq<Json>)
    requires |diffs| <= |cs|
    ensures |r| <= |diffs|
    decreases |diffs|
  {
    if diffs == [] then []
    else
      var n := |diffs| - 1;
      FailedNames(cs, diffs[..n]) + (if IsFailing(diffs[n]) then [cs[n].name] else [])
  }

  /** The names of the first n tests. */
  function Names(cs: seq<TestCase>, n: nat): (r: seq<Json>)
    requires n <= |cs|
    ensures |r| == n && forall k :: 0 <= k < n ==> r[k] == cs[k].name
  {
    seq(n, k requires 0 <= k < n => cs[k].name)
  }

  /** What run_tests reports, or the RuntimeError that ends it. */
  function RunSummary(cs: seq<TestCase>, outcomes: seq<Outcome>, opsList: seq<seq<Opcode>>, colour: bool)
    : Result<Summary, string>
    requires |outcomes| == |cs| && |opsList| == |cs|
  {
    var diffs :- Diffs(cs, outcomes, opsList, colour, |cs|);
    var failed := FailedNames(cs, diffs);
    Success(Summary(|cs| - |failed|, |cs|, failed))
  }

  /** One more run that does not raise extends the diffs by its own, and collects its name when that diff is truthy. */
  lemma RunStep(cs: seq<TestCase>, outcomes: seq<Outcome>, opsList: seq<seq<Opcode>>, colour: bool, i: nat,
                diffs: seq<Option<string>>, failed: seq<Json>, d: Option<string>)
    requires i < |cs| && |outcomes| == |cs| && |opsList| == |cs|
    requires Diffs(cs, outcomes, opsList, colour, i) == Success(diffs) && failed == FailedNames(cs, diffs)
    requires Classify(outcomes[i], cs[i].expected, opsList[i], colour) == Success(d)
    ensures Diffs(cs, outcomes, opsList, colour, i + 1) == Success(diffs + [d])
    ensures FailedNames(cs, diffs + [d]) == if IsFailing(d) then failed + [cs[i].name] else failed
  {
    FailedSnoc(cs, diffs, d);
  }

  /** Once every run has stored its diff, the report counts the collected names. */
  lemma RunEnd(cs: seq<TestCase>, outcomes: seq<Outcome>, opsList: seq<seq<Opcode>>, colour: bool,
               diffs: seq<Option<string>>, failed: seq<Json>)
    requires |outcomes| == |cs| && |opsList| == |cs|
    requires Diffs(cs, outcomes, opsList, colour, |cs|) == Success(diffs) && failed == FailedNames(cs, diffs)
    ensures RunSummary(cs, outcomes, opsList, colour) == Success(Summary(|cs| - |failed|, |cs|, failed))
  {
  }

  /** The first run that raises ends run_tests with its error. */
  lemma RunAbort(cs: seq<TestCase>, outcomes: seq<Outcome>, opsList: seq<seq<Opcode>>, colour: bool, i: nat)
    requires i < |cs| && |outcomes| == |cs| && |opsList| == |cs|
    requires Diffs(cs, outcomes, opsList, colour, i).Success?
    requires Classify(outcomes[i], cs[i].expected, opsList[i], colour).Failure?
    ensures RunSummary(cs, outcomes, opsList, colour) == Failure(Classify(outcomes[i], cs[i].expected, opsList[i], colour).error)
  {
    DiffsAtFirstError(cs, outcomes, opsList, colour, i, |cs|);
  }


  lemma FailedSnoc(cs: seq<TestCase>, diffs: seq<Option<string>>, d: Option<string>)
    requires |diffs| < |cs|
    ensures FailedNames(cs, diffs + [d]) == FailedNames(cs, diffs) + (if IsFailing(d) then [cs[|diffs|].name] else [])
  {
    assert (diffs + [d])[..|diffs|] == diffs;
  }

  /** A test's name is collected when its diff is truthy, and every collected name is such a test's. */
  lemma {:induction false} FailedMembers(cs: seq<TestCase>, diffs: seq<Option<string>>)
    requires |diffs| <= |cs|
    ensures forall k :: 0 <= k < |diffs| && IsFailing(diffs[k]) ==> cs[k].name in FailedNames(cs, diffs)
    ensures forall x :: x in FailedNames(cs, diffs) ==> exists k :: 0 <= k < |diffs| && IsFailing(diffs[k]) && cs[k].name == x
    decreases |diffs|
  {
    if diffs != [] {
      var n := |diffs| - 1;
      FailedMembers(cs, diffs[..n]);
      assert forall k :: 0 <= k < n ==> diffs[..n][k] == diffs[k];
    }
  }

  /** No name is collected exactly when no diff is truthy. */
  lemma {:induction false} NoneFailed(cs: seq<TestCase>, diffs: seq<Option<string>>)
    requires |diffs| <= |cs|
    ensures FailedNames(cs, diffs) == [] <==> forall k :: 0 <= k < |diffs| ==> !IsFailing(diffs[k])
    decreases |diffs|
  {
    if diffs != [] {
      var n := |diffs| - 1;
      NoneFailed(cs, diffs[..n]);
      assert forall k :: 0 <= k < n ==> diffs[..n][k] == diffs[k];
    }
  }

  /** The failed names keep the order of the tests. */
  lemma {:induction false} FailedInOrder(cs: seq<TestCase>, diffs: seq<Option<string>>)
    requires |diffs| <= |cs|
    ensures IsSubsequence(FailedNames(cs, diffs), Names(cs, |diffs|))
    decreases |diffs|
  {
    if diffs != [] {
      var n := |diffs| - 1;
      FailedInOrder(cs, diffs[..n]);
      var f := FailedNames(cs, diffs[..n]);
      var names := Names(cs, |diffs|);
      assert names[..n] == Names(cs, n);
      assert names == Names(cs, n) + [cs[n].name];
      if IsFailing(diffs[n]) {
        assert (f + [cs[n].name])[..|f|] == f;
      } else {
        assert FailedNames(cs, diffs) == f;
        SubsequenceExtend(f, Names(cs, n), cs[n].name);
      }
    }
  }

  /** run_tests finishes exactly when no run raises. */
  lemma RunFinishes(cs: seq<TestCase>, outcomes: seq<Outcome>, opsList: seq<seq<Opcode>>, colour: bool)
    requires |outcomes| == |cs| && |opsList| == |cs|
    ensures RunSummary(cs, outcomes, opsList, colour).Success? <==>
      forall k :: 0 <= k < |cs| ==> Classify(outcomes[k], cs[k].expected, opsList[k], colour).Success?
  {
    DiffsSpec(cs, outcomes, opsList, colour, |cs|);
  }

  /**
   * When run_tests finishes, every test is counted, the pass count is the
   * number of tests less the failed names, the failed names are those of
   * the tests whose stored diff is truthy, in input order, and the
   * all-passed branch is taken exactly when no stored diff is truthy.
   */
  lemma RunCounts(cs: seq<TestCase>, outcomes: seq<Outcome>, opsList: seq<seq<Opcode>>, colour: bool)
    requires |outcomes| == |cs| && |opsList| == |cs|
    requires RunSummary(cs, outcomes, opsList, colour).Success?
    ensures var s := RunSummary(cs, outcomes, opsList, colour).value;
      var diffs := Diffs(cs, outcomes, opsList, colour, |cs|).value;
      && s.total == |cs|
      && 0 <= s.passed == |cs| - |s.failed|
      && IsSubsequence(s.failed, Names(cs, |cs|))
      && (forall k :: 0 <= k < |cs| && IsFailing(diffs[k]) ==> cs[k].name in s.failed)
      && (forall x :: x in s.failed ==> exists k :: 0 <= k < |cs| && IsFailing(diffs[k]) && cs[k].name == x)
      && (AllPassed(s) <==> forall k :: 0 <= k < |cs| ==> !IsFailing(diffs[k]))
  {
    var diffs := Diffs(cs, outcomes, opsList, colour, |cs|).value;
    FailedMembers(cs, diffs);
    NoneFailed(cs, diffs);
    FailedInOrder(cs, diffs);
  }

  /**
   * For opcodes that are a valid edit script with known tags, no run raises,
   * and all tests pass exactly when every process completed with an empty
   * error stream and every comparison was all 'equal'.
   */
  lemma AllPassedIff(cs: seq<TestCase>, outcomes: seq<Outcome>, opsList: seq<seq<Opcode>>, colour: bool)
    requires |outcomes| == |cs| && |opsList| == |cs|
    requires forall k :: 0 <= k < |cs| && outcomes[k].Completed? ==>
      WellFormed(opsList[k], outcomes[k].out, cs[k].expected) && AllKnown(opsList[k])
    ensures RunSummary(cs, outcomes, opsList, colour).Success?
    ensures AllPassed(RunSummary(cs, outcomes, opsList, colour).value) <==>
      forall k :: 0 <= k < |cs| ==>
        && outcomes[k].Completed?
        && (outcomes[k].err.None? || outcomes[k].err.value == "")
        && AllEqual(opsList[k])
  {
    forall k | 0 <= k < |cs|
      ensures Classify(outcomes[k], cs[k].expected, opsList[k], colour).Success?
      ensures Passes(Classify(outcomes[k], cs[k].expected, opsList[k], colour)) <==>
        outcomes[k].Completed? && (outcomes[k].err.None? || outcomes[k].err.value == "") && AllEqual(opsList[k])
    {
      RunVerdict(outcomes[k], cs[k].expected, opsList[k], colour);
      if outcomes[k].Completed? && !(outcomes[k].err.Some? && outcomes[k].err.value != "") {
        DiffVerdict(outcomes[k].out, cs[k].expected, opsList[k], colour);
      }
    }
    RunFinishes(cs, outcomes, opsList, colour);
    RunCounts(cs, outcomes, opsList, colour);
    DiffsSpec(cs, outcomes, opsList, colour, |cs|);
  }

  /**
   * When the matcher also matches identical texts as identical, all tests
   * pass exactly when every process completed with an empty error stream and
   * printed exactly its expected text.
   */
  lemma AllPassedIffOutputs(cs: seq<TestCase>, outcomes: seq<Outcome>, opsList: seq<seq<Opcode>>, colour: bool)
    requires |outcomes| == |cs| && |opsList| == |cs|
    requires forall k :: 0 <= k < |cs| && outcomes[k].Completed? ==>
      Matched(opsList[k], outcomes[k].out, cs[k].expected) && AllKnown(opsList[k])
    ensures RunSummary(cs, outcomes, opsList, colour).Success?
    ensures AllPassed(RunSummary(cs, outcomes, opsList, colour).value) <==>
      forall k :: 0 <= k < |cs| ==>
        && outcomes[k].Completed?
        && (outcomes[k].err.None? || outcomes[k].err.value == "")
        && outcomes[k].out == cs[k].expected
  {
    AllPassedIff(cs, outcomes, opsList, colour);
    forall k | 0 <= k < |cs| && outcomes[k].Completed?
      ensures AllEqual(opsList[k]) <==> outcomes[k].out == cs[k].expected
    {
      DiffNoneIff(outcomes[k].out, cs[k].expected, opsList[k], colour);
    }
  }

  /**
   * run_tests over loaded tests, given how each run's process ended and the
   * opcodes of each comparison: the report, or the RuntimeError of the
   * first run that raises.
   */
  method RunTests(tests: seq<Test>, outcomes: seq<Outcome>, opsList: seq<seq<Opcode>>, colour: bool)
    returns (r: Result<Summary, string>)
    requires |outcomes| == |tests| && |opsList| == |tests|
    modifies tests
    // stated case by case; together the two say r == RunSummary(Configs(tests), outcomes, opsList, colour)
    ensures r.Success? ==> r == RunSummary(Configs(tests), outcomes, opsList, colour)
    ensures r.Failure? ==> r == RunSummary(Configs(tests), outcomes, opsList, colour)
  {
    var cs := Configs(tests);
    var failed: seq<Json> := [];
    ghost var diffs: seq<Option<string>> := [];
    for i := 0 to |tests|
      invariant Diffs(cs, outcomes, opsList, colour, i) == Success(diffs)
      invariant failed == FailedNames(cs, diffs)
    {
      var test := tests[i];
      ConfigAt(tests, i);
      var ran := test.Run(outcomes[i], opsList[i], colour);
      if ran.Failure? {
        RunAbort(cs, outcomes, opsList, colour, i);
        return Failure(ran.error);
      }
      RunStep(cs, outcomes, opsList, colour, i, diffs, failed, test.diff);
      diffs := diffs + [test.diff];
      if IsFailing(test.diff) {
        failed := failed + [test.config.name];
      }
    }
    RunEnd(cs, outcomes, opsList, colour, diffs, failed);
    return Success(Summary(|tests| - |failed|, |tests|, failed));
  }
}
