/**
 * load_tests: build a test from every specification file the glob found,
 * stop at the first file that cannot be loaded, then keep, in file order,
 * the tests that pass the exercise, test-name and challenge filters. It
 * aborts when there are no files, and when a filter was given but nothing
 * is left.
 */
module Loader {
  import opened Wrappers
  import opened TestCases
  import opened Subsequences

  /** One file found by the glob: its path and its decoded record. */
  datatype SpecFile = SpecFile(path: string, data: map<string, Json>)

  /** The condition under which load_tests skips a test. */
  predicate Skipped(t: TestCase, exercise: string, testName: string, challenge: bool) {
    || (exercise != "" && t.exercise != JString(exercise))
    || (testName != "" && t.name != JString(testName))
    || (!challenge && Truthy(t.challenge))
  }

  /** The tests load_tests keeps. */
  predicate Keep(t: TestCase, exercise: string, testName: string, challenge: bool) {
    !Skipped(t, exercise, testName, challenge)
  }

  /** A test is kept exactly when it passes all three filters. */
  lemma KeepIff(t: TestCase, exercise: string, testName: string, challenge: bool)
    ensures Keep(t, exercise, testName, challenge) <==>
      && (exercise == "" || t.exercise == JString(exercise))
      && (testName == "" || t.name == JString(testName))
      && (challenge || !Truthy(t.challenge))
  {
  }

  /** The test built from one file. */
  function Build(file: SpecFile, cwd: string, isFile: set<string>): Result<TestCase, LoadError> {
    Construct(file.data, file.path, cwd, isFile)
  }

  /** The result of building each file, in order. */
  function Builds(files: seq<SpecFile>, cwd: string, isFile: set<string>): (r: seq<Result<TestCase, LoadError>>)
    ensures |r| == |files| && forall k :: 0 <= k < |files| ==> r[k] == Build(files[k], cwd, isFile)
  {
    seq(|files|, k requires 0 <= k < |files| => Build(files[k], cwd, isFile))
  }

  /** All the built tests, or the error of the first file that could not be built. */
  function Collect(rs: seq<Result<TestCase, LoadError>>): (r: Result<seq<TestCase>, LoadError>)
    ensures r.Success? ==> (|r.value| == |rs| && forall k :: 0 <= k < |rs| ==> rs[k] == Success(r.value[k]))
    ensures r.Failure? ==>
      (exists k :: 0 <= k < |rs| && rs[k] == Failure(r.error) && forall m :: 0 <= m < k ==> rs[m].Success?)
    decreases |rs|
  {
    if rs == [] then Success([])
    else
      assert forall k | 0 <= k < |rs| - 1 :: rs[..|rs| - 1][k] == rs[k];
      var init :- Collect(rs[..|rs| - 1]);
      var t :- rs[|rs| - 1];
      Success(init + [t])
  }

  /** A test for every file, in order, or the error of the first file that cannot be loaded. */
  function ConstructAll(files: seq<SpecFile>, cwd: string, isFile: set<string>): Result<seq<TestCase>, LoadError> {
    Collect(Builds(files, cwd, isFile))
  }

  /** The tests that pass the filter, in their original order. */
  function Select(tests: seq<TestCase>, exercise: string, testName: string, challenge: bool): seq<TestCase>
    decreases |tests|
  {
    if tests == [] then []
    else
      var last := tests[|tests| - 1];
      Select(tests[..|tests| - 1], exercise, testName, challenge) + (if Keep(last, exercise, testName, challenge) then [last] else [])
  }

  /** What load_tests returns, or the reason it exits, given the result of building each file found. */
  function LoadFrom(built: seq<Result<TestCase, LoadError>>, exercise: string, testName: string, challenge: bool)
    : Result<seq<TestCase>, LoadError>
  {
    if built == [] then Failure(NoTestsAvailable)
    else
      var all :- Collect(built);
      var tests := Select(all, exercise, testName, challenge);
      if tests == [] && (exercise != "" || testName != "") then Failure(NoTestsMatched) else Success(tests)
  }

  /** What load_tests returns, or the reason it exits. */
  function Load(files: seq<SpecFile>, cwd: string, isFile: set<string>, exercise: string, testName: string, challenge: bool)
    : Result<seq<TestCase>, LoadError>
  {
    LoadFrom(Builds(files, cwd, isFile), exercise, testName, challenge)
  }

  /** The selection keeps the original order: it is a subsequence of the tests. */
  lemma {:induction false} SelectIsSubsequence(tests: seq<TestCase>, exercise: string, testName: string, challenge: bool)
    ensures IsSubsequence(Select(tests, exercise, testName, challenge), tests)
    decreases |tests|
  {
    if tests != [] {
      var init := tests[..|tests| - 1];
      var last := tests[|tests| - 1];
      SelectIsSubsequence(init, exercise, testName, challenge);
      var s := Select(init, exercise, testName, challenge);
      if Keep(last, exercise, testName, challenge) {
        assert (s + [last])[..|s|] == s;
      } else {
        assert Select(tests, exercise, testName, challenge) == s;
        if s != [] {
          SubsequenceExtend(s, init, last);
        }
      }
    }
  }

  /** A test is selected exactly when it is one of the tests and passes the filter. */
  lemma {:induction false} SelectMembers(tests: seq<TestCase>, exercise: string, testName: string, challenge: bool, t: TestCase)
    ensures t in Select(tests, exercise, testName, challenge) <==> t in tests && Keep(t, exercise, testName, challenge)
    decreases |tests|
  {
    if tests != [] {
      var init := tests[..|tests| - 1];
      SelectMembers(init, exercise, testName, challenge, t);
      assert tests == init + [tests[|tests| - 1]];
    }
  }

  /** When the filter keeps every test (as with no filters and the challenge flag), the selection is all of them. */
  lemma {:induction false} SelectAll(tests: seq<TestCase>, exercise: string, testName: string, challenge: bool)
    requires forall k :: 0 <= k < |tests| ==> Keep(tests[k], exercise, testName, challenge)
    ensures Select(tests, exercise, testName, challenge) == tests
    decreases |tests|
  {
    if tests != [] {
      SelectAll(tests[..|tests| - 1], exercise, testName, challenge);
    }
  }

  /** The selection is empty exactly when the filter rejects every test. */
  lemma {:induction false} SelectEmpty(tests: seq<TestCase>, exercise: string, testName: string, challenge: bool)
    ensures Select(tests, exercise, testName, challenge) == [] <==>
      forall k :: 0 <= k < |tests| ==> !Keep(tests[k], exercise, testName, challenge)
    decreases |tests|
  {
    if tests != [] {
      SelectEmpty(tests[..|tests| - 1], exercise, testName, challenge);
    }
  }

  lemma ConstructErrorIsLoadError(file: SpecFile, cwd: string, isFile: set<string>)
    ensures Build(file, cwd, isFile).Failure? ==>
      !Build(file, cwd, isFile).error.NoTestsAvailable? && !Build(file, cwd, isFile).error.NoTestsMatched?
  {
  }

  /**
   * The two aborts of load_tests: no files at all, or a filter was given and
   * nothing was selected; an empty selection without filters is returned.
   * A successful load is a subsequence of the built tests, all passing the filter.
   */
  lemma LoadVerdict(files: seq<SpecFile>, cwd: string, isFile: set<string>, exercise: string, testName: string, challenge: bool)
    ensures Load(files, cwd, isFile, exercise, testName, challenge) == Failure(NoTestsAvailable) <==> files == []
    ensures Load(files, cwd, isFile, exercise, testName, challenge) == Failure(NoTestsMatched) <==>
      && files != []
      && ConstructAll(files, cwd, isFile).Success?
      && (exercise != "" || testName != "")
      && forall k :: 0 <= k < |files| ==> !Keep(ConstructAll(files, cwd, isFile).value[k], exercise, testName, challenge)
    ensures files != [] && ConstructAll(files, cwd, isFile).Success? && exercise == "" && testName == "" ==>
      Load(files, cwd, isFile, exercise, testName, challenge).Success?
    ensures Load(files, cwd, isFile, exercise, testName, challenge).Success? ==>
      var tests := Load(files, cwd, isFile, exercise, testName, challenge).value;
      && IsSubsequence(tests, ConstructAll(files, cwd, isFile).value)
      && forall k :: 0 <= k < |tests| ==> Keep(tests[k], exercise, testName, challenge)
  {
    var all := ConstructAll(files, cwd, isFile);
    if all.Failure? {
      var rs := Builds(files, cwd, isFile);
      var k :| 0 <= k < |rs| && rs[k] == Failure(all.error);
      ConstructErrorIsLoadError(files[k], cwd, isFile);
    } else {
      SelectEmpty(all.value, exercise, testName, challenge);
      SelectIsSubsequence(all.value, exercise, testName, challenge);
      var tests := Select(all.value, exercise, testName, challenge);
      forall k | 0 <= k < |tests| ensures Keep(tests[k], exercise, testName, challenge) {
        SelectMembers(all.value, exercise, testName, challenge, tests[k]);
      }
    }
  }

  /** Every one of the first n results is a test. */
  predicate BuiltBefore(built: seq<Result<TestCase, LoadError>>, n: nat)
    requires n <= |built|
  {
    forall k :: 0 <= k < n ==> built[k].Success?
  }

  /** The selected tests among the first n results, all of which are tests. */
  function SelectBefore(built: seq<Result<TestCase, LoadError>>, n: nat, exercise: string, testName: string, challenge: bool)
    : seq<TestCase>
    requires n <= |built| && BuiltBefore(built, n)
  {
    if n == 0 then []
    else
      var t := built[n - 1].value;
      SelectBefore(built, n - 1, exercise, testName, challenge) + (if Keep(t, exercise, testName, challenge) then [t] else [])
  }

  lemma {:induction false} SelectBeforeIsSelect(built: seq<Result<TestCase, LoadError>>, n: nat, exercise: string, testName: string, challenge: bool)
    requires n <= |built| && BuiltBefore(built, n)
    ensures Collect(built[..n]).Success?
    ensures SelectBefore(built, n, exercise, testName, challenge) == Select(Collect(built[..n]).value, exercise, testName, challenge)
  {
    if n > 0 {
      SelectBeforeIsSelect(built, n - 1, exercise, testName, challenge);
      assert built[..n][..n - 1] == built[..n - 1];
      var all := Collect(built[..n]).value;
      assert all[..n - 1] == Collect(built[..n - 1]).value;
    }
  }

  /** When every file builds, load_tests's answer is determined by the selection. */
  lemma LoadWhenAllBuild(built: seq<Result<TestCase, LoadError>>, exercise: string, testName: string, challenge: bool)
    requires built != [] && BuiltBefore(built, |built|)
    ensures var tests := SelectBefore(built, |built|, exercise, testName, challenge);
      LoadFrom(built, exercise, testName, challenge) ==
        if tests == [] && (exercise != "" || testName != "") then Failure(NoTestsMatched) else Success(tests)
  {
    SelectBeforeIsSelect(built, |built|, exercise, testName, challenge);
    assert built[..|built|] == built;
  }

  /** The first file that does not build decides load_tests's error. */
  lemma LoadAtFirstError(built: seq<Result<TestCase, LoadError>>, i: nat, exercise: string, testName: string, challenge: bool)
    requires i < |built| && BuiltBefore(built, i) && built[i].Failure?
    ensures LoadFrom(built, exercise, testName, challenge) == Failure(built[i].error)
  {
    var r := Collect(built);
    assert r.Failure?;
    var k :| 0 <= k < |built| && built[k] == Failure(r.error) && forall m :: 0 <= m < k ==> built[m].Success?;
    assert k == i;
  }

  /** The configurations of a list of tests. */
  function Configs(tests: seq<Test>): (r: seq<TestCase>)
    ensures |r| == |tests|
  {
    if tests == [] then [] else Configs(tests[..|tests| - 1]) + [tests[|tests| - 1].config]
  }

  lemma {:induction false} ConfigAt(tests: seq<Test>, k: nat)
    requires k < |tests|
    ensures Configs(tests)[k] == tests[k].config
    decreases |tests|
  {
    if k < |tests| - 1 {
      ConfigAt(tests[..|tests| - 1], k);
    }
  }

  /**
   * The loop of load_tests, given the result of constructing a test from
   * each file found: stop at the first error, otherwise a fresh test object
   * for every record that is not skipped, in order.
   */
  method LoadBuilt(built: seq<Result<TestCase, LoadError>>, exercise: string, testName: string, challenge: bool)
    returns (r: Result<seq<Test>, LoadError>)
    ensures LoadFrom(built, exercise, testName, challenge).Failure? ==>
      r == Failure(LoadFrom(built, exercise, testName, challenge).error)
    ensures LoadFrom(built, exercise, testName, challenge).Success? ==>
      && r.Success?
      && Configs(r.value) == LoadFrom(built, exercise, testName, challenge).value
      && forall k :: 0 <= k < |r.value| ==> fresh(r.value[k]) && r.value[k].diff == Some("")
  {
    if built == [] {
      return Failure(NoTestsAvailable);
    }
    var tests: seq<Test> := [];
    for i := 0 to |built|
      invariant BuiltBefore(built, i)
      invariant Configs(tests) == SelectBefore(built, i, exercise, testName, challenge)
      invariant forall k :: 0 <= k < |tests| ==> fresh(tests[k]) && tests[k].diff == Some("")
    {
      match built[i]
      case Failure(e) =>
        LoadAtFirstError(built, i, exercise, testName, challenge);
        return Failure(e);
      case Success(config) =>
        var test := new Test(config);
        if Skipped(test.config, exercise, testName, challenge) {
          continue;
        }
        tests := tests + [test];
    }
    LoadWhenAllBuild(built, exercise, testName, challenge);
    if tests == [] && (exercise != "" || testName != "") {
      return Failure(NoTestsMatched);
    }
    return Success(tests);
  }

  /** load_tests: fresh tests for the selected files, or the reason it exits. */
  method LoadTests(files: seq<SpecFile>, cwd: string, isFile: set<string>, exercise: string, testName: string, challenge: bool)
    returns (r: Result<seq<Test>, LoadError>)
    ensures Load(files, cwd, isFile, exercise, testName, challenge).Failure? ==>
      r == Failure(Load(files, cwd, isFile, exercise, testName, challenge).error)
    ensures Load(files, cwd, isFile, exercise, testName, challenge).Success? ==>
      && r.Success?
      && Configs(r.value) == Load(files, cwd, isFile, exercise, testName, challenge).value
      && forall k :: 0 <= k < |r.value| ==> fresh(r.value[k]) && r.value[k].diff == Some("")
  {
    r := LoadBuilt(Builds(files, cwd, isFile), exercise, testName, challenge);
  }
}
