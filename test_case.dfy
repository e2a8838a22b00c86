/**
 * One test case: building it from a decoded JSON record (optional keys get
 * their defaults, input lines get newline terminators, the binary path is
 * resolved against the working directory and must exist), and classifying
 * how its process ended (timeout, output on the error stream, or a content
 * diff against the expected output).
 */
module TestCases {
  import opened Wrappers
  import opened Colours
  import opened TextDiff

  /** A decoded JSON value. Numbers are modelled as integers; nested objects do not occur in a test record. */
  datatype Json = JNull | JBool(b: bool) | JNumber(n: int) | JString(s: string) | JArray(items: seq<Json>)

  /** Python's truthiness of a decoded JSON value. */
  predicate Truthy(j: Json) {
    match j
    case JNull => false
    case JBool(b) => b
    case JNumber(n) => n != 0
    case JString(s) => s != ""
    case JArray(items) => items != []
  }

  /** get_optional: data[key] when the key is present, otherwise the fallback. */
  function GetOptional(data: map<string, Json>, key: string, fallback: Json): (r: Json)
    ensures key in data ==> r == data[key]
    ensures key !in data ==> r == fallback
  {
    if key in data then data[key] else fallback
  }

  // ---------------------------------------------------------------------------
  // Paths: os.path.basename and os.path.splitext on '/'-separated paths.

  /** Python's s.rfind(c): the last index of c in s, or -1. */
  function RFind(s: string, c: char): (r: int)
    ensures -1 <= r < |s|
    ensures r >= 0 ==> s[r] == c
    ensures forall k :: r < k < |s| ==> s[k] != c
  {
    if s == [] then -1
    else if s[|s| - 1] == c then |s| - 1
    else RFind(s[..|s| - 1], c)
  }

  /** os.path.basename: what follows the last '/'. */
  function BaseName(path: string): string {
    path[RFind(path, '/') + 1..]
  }

  /** os.path.splitext(name)[0] for a name without '/': cut at the last '.', unless only dots precede it. */
  function SplitExtRoot(name: string): string {
    var dot := RFind(name, '.');
    if dot >= 0 && exists k :: 0 <= k < dot && name[k] != '.' then name[..dot] else name
  }

  /** The default test name: the file's base name without its extension. */
  function Stem(testFile: string): string {
    SplitExtRoot(BaseName(testFile))
  }

  /** A file found by globbing directory + '*.json' is named after the part the wildcard matched. */
  lemma StemOfSpecFile(directory: string, name: string)
    requires |directory| > 0 && directory[|directory| - 1] == '/'
    requires |name| > 0 && name[0] != '.' && forall k :: 0 <= k < |name| ==> name[k] != '/'
    ensures Stem(directory + name + ".json") == name
  {
    var path := directory + name + ".json";
    var slash := RFind(path, '/');
    assert path[|directory| - 1] == '/';
    assert forall k :: |directory| <= k < |path| ==> path[k] != '/' by {
      forall k | |directory| <= k < |path| ensures path[k] != '/' {
        if k < |directory| + |name| { assert path[k] == name[k - |directory|]; }
      }
    }
    assert slash == |directory| - 1;
    var base := BaseName(path);
    assert base == name + ".json";
    var dot := RFind(base, '.');
    assert base[|name|] == '.';
    assert dot == |name|;
    assert base[0] == name[0];
    assert base[..dot] == name;
  }

  // ---------------------------------------------------------------------------
  // Lines of text.

  /**
   * Iterating a decoded value where every item must be a str (in line + '\n'):
   * a list of strings gives its items, a string gives its characters, and
   * anything else raises TypeError (None).
   */
  function StringItems(j: Json): (r: Option<seq<string>>)
    ensures j.JArray? ==> (r.Some? <==> forall k :: 0 <= k < |j.items| ==> j.items[k].JString?)
    ensures j.JArray? && r.Some? ==> |r.value| == |j.items| && forall k :: 0 <= k < |j.items| ==> r.value[k] == j.items[k].s
    ensures j.JString? ==> r.Some? && |r.value| == |j.s| && forall k :: 0 <= k < |j.s| ==> r.value[k] == [j.s[k]]
    ensures !j.JArray? && !j.JString? ==> r.None?
  {
    match j
    case JArray(items) =>
      if forall k :: 0 <= k < |items| ==> items[k].JString?
      then Some(seq(|items|, k requires 0 <= k < |items| && items[k].JString? => items[k].s))
      else None
    case JString(s) => Some(seq(|s|, k requires 0 <= k < |s| => [s[k]]))
    case _ => None
  }

  /** [line + '\n' for line in lines] */
  function Terminated(lines: seq<string>): (r: seq<string>)
    ensures |r| == |lines| && forall k :: 0 <= k < |lines| ==> r[k] == lines[k] + "\n"
  {
    seq(|lines|, k requires 0 <= k < |lines| => lines[k] + "\n")
  }

  /** ''.join([line + '\n' for line in lines]) */
  function JoinTerminated(lines: seq<string>): string {
    if lines == [] then "" else lines[0] + "\n" + JoinTerminated(lines[1..])
  }

  /** Python's s.find(c): the first index of c in s, or -1. */
  function Find(s: string, c: char): (r: int)
    ensures -1 <= r < |s|
    ensures r >= 0 ==> s[r] == c
    ensures forall k :: 0 <= k < |s| && (r < 0 || k < r) ==> s[k] != c
  {
    if s == [] then -1
    else if s[0] == c then 0
    else
      var r := Find(s[1..], c);
      if r < 0 then -1 else r + 1
  }

  /** Splits newline-terminated text back into its lines (the inverse of JoinTerminated). */
  function SplitTerminated(s: string): seq<string>
    decreases |s|
  {
    if s == [] then []
    else
      var k := Find(s, '\n');
      if k < 0 then [s] else [s[..k]] + SplitTerminated(s[k + 1..])
  }

  predicate NoNewlines(lines: seq<string>) {
    forall k, m :: 0 <= k < |lines| && 0 <= m < |lines[k]| ==> lines[k][m] != '\n'
  }

  /** Splitting a newline-free line followed by its terminator and more text yields that line first. */
  lemma SplitHead(line: string, rest: string)
    requires forall m :: 0 <= m < |line| ==> line[m] != '\n'
    ensures SplitTerminated(line + "\n" + rest) == [line] + SplitTerminated(rest)
  {
    var s := line + "\n" + rest;
    var n := |line|;
    assert s[n] == '\n';
    assert forall m :: 0 <= m < n ==> s[m] == line[m];
    assert Find(s, '\n') == n;
    assert s[..n] == line;
    assert s[n + 1..] == rest;
  }

  /** The expected text determines the expected lines it was joined from. */
  lemma {:induction false} SplitJoin(lines: seq<string>)
    requires NoNewlines(lines)
    ensures SplitTerminated(JoinTerminated(lines)) == lines
  {
    if lines != [] {
      assert forall m | 0 <= m < |lines[0]| :: lines[0][m] != '\n';
      SplitHead(lines[0], JoinTerminated(lines[1..]));
      assert NoNewlines(lines[1..]) by {
        forall k, m | 0 <= k < |lines| - 1 && 0 <= m < |lines[1..][k]| ensures lines[1..][k][m] != '\n' {
          assert lines[1..][k] == lines[k + 1];
        }
      }
      SplitJoin(lines[1..]);
    }
  }

  // ---------------------------------------------------------------------------
  // Construction.

  /** The fields Test.__init__ sets from a test record (diff lives in the Test object). */
  datatype TestCase = TestCase(
    name: Json,
    description: Json,
    exercise: Json,
    challenge: Json,
    timeLimit: Json,
    binary: string,
    args: seq<string>,
    input: seq<string>,
    expected: string,
    authors: Json)

  /** Why loading stops: an exception while reading a record, a missing executable, or an empty selection. */
  datatype LoadError =
    | MissingKey(key: string)
    | WrongType(key: string)
    | MissingBinary(binary: string)
    | NoTestsAvailable
    | NoTestsMatched

  /** data[key] iterated as strings: KeyError if absent, TypeError if not a sequence of strings. */
  function StringsAt(data: map<string, Json>, key: string): Result<seq<string>, LoadError> {
    if key !in data then Failure(MissingKey(key))
    else match StringItems(data[key])
      case None => Failure(WrongType(key))
      case Some(items) => Success(items)
  }

  /** The arguments: data['args'] iterated as strings, [] when absent. */
  function ArgsOf(data: map<string, Json>): Result<seq<string>, LoadError> {
    if "args" in data then StringsAt(data, "args") else Success([])
  }

  /** Whether every value the constructor converts has the required key and the required type. */
  predicate Decodes(data: map<string, Json>) {
    && "binary" in data && data["binary"].JString?
    && ArgsOf(data).Success?
    && StringsAt(data, "input").Success?
    && StringsAt(data, "expected").Success?
  }

  /**
   * Test.__init__ on a decoded record. testFile is the record's path, and
   * isFile is the set of paths that are existing regular files.
   */
  function Construct(data: map<string, Json>, testFile: string, workingDirectory: string, isFile: set<string>): (r: Result<TestCase, LoadError>)
    // errors, in the order the constructor meets them
    ensures "binary" !in data ==> r == Failure(MissingKey("binary"))
    ensures "binary" in data && !data["binary"].JString? ==> r == Failure(WrongType("binary"))
    ensures "binary" in data && data["binary"].JString? && ArgsOf(data).Failure? ==> r == Failure(WrongType("args"))
    ensures "binary" in data && data["binary"].JString? && ArgsOf(data).Success? && "input" !in data ==>
      r == Failure(MissingKey("input"))
    ensures "binary" in data && data["binary"].JString? && ArgsOf(data).Success? && "input" in data && StringItems(data["input"]).None? ==>
      r == Failure(WrongType("input"))
    ensures "binary" in data && data["binary"].JString? && ArgsOf(data).Success? && StringsAt(data, "input").Success? ==>
      ("expected" !in data ==> r == Failure(MissingKey("expected")))
      && ("expected" in data && StringItems(data["expected"]).None? ==> r == Failure(WrongType("expected")))
    ensures Decodes(data) && workingDirectory + "/" + data["binary"].s !in isFile ==>
      r == Failure(MissingBinary(data["binary"].s))
    ensures r.Success? <==> Decodes(data) && workingDirectory + "/" + data["binary"].s in isFile
    // the fields of a constructed test
    ensures r.Success? ==>
      var t := r.value;
      && t.binary == workingDirectory + "/" + data["binary"].s
      && (var lines := StringItems(data["input"]).value;
          |t.input| == |lines| && forall k :: 0 <= k < |lines| ==> t.input[k] == lines[k] + "\n")
      && t.expected == JoinTerminated(StringItems(data["expected"]).value)
      && t.args == (if "args" in data then StringItems(data["args"]).value else [])
    // optional keys: verbatim when present, the default when absent
    ensures r.Success? ==>
      var t := r.value;
      && t.name == (if "name" in data then data["name"] else JString(Stem(testFile)))
      && t.description == (if "description" in data then data["description"] else JString("no description"))
      && t.exercise == (if "exercise" in data then data["exercise"] else data["binary"])
      && t.challenge == (if "challenge" in data then data["challenge"] else JBool(false))
      && t.timeLimit == (if "time_limit" in data then data["time_limit"] else JNumber(60))
      && t.authors == (if "authors" in data then data["authors"] else JArray([JString("no author")]))
  {
    if "binary" !in data then Failure(MissingKey("binary"))
    else if !data["binary"].JString? then Failure(WrongType("binary"))
    else
      var binary := workingDirectory + "/" + data["binary"].s;
      var args :- ArgsOf(data);
      var input :- StringsAt(data, "input");
      var expected :- StringsAt(data, "expected");
      if binary !in isFile then Failure(MissingBinary(data["binary"].s))
      else
        Success(TestCase(
          name := GetOptional(data, "name", JString(Stem(testFile))),
          description := GetOptional(data, "description", JString("no description")),
          exercise := GetOptional(data, "exercise", data["binary"]),
          challenge := GetOptional(data, "challenge", JBool(false)),
          timeLimit := GetOptional(data, "time_limit", JNumber(60)),
          binary := binary,
          args := args,
          input := Terminated(input),
          expected := JoinTerminated(expected),
          authors := GetOptional(data, "authors", JArray([JString("no author")]))))
  }

  // ---------------------------------------------------------------------------
  // Classifying a finished run.

  /** How the process of one run ended; err is the captured error stream, if it was captured. */
  datatype Outcome = Timeout | Completed(out: string, err: Option<string>)

  const TimeLimitMessage: string := "Time limit exceeded."

  /** The indentation that the source's triple-quoted message carries on its continuation lines. */
  const Indent: string := "                "

  /** The message stored for a run that wrote to its error stream. */
  function ErrorReport(out: string, err: string): string {
    "Encountered error running test:\n" + Indent + "Output: " + out + "\n" + Indent + "Error output: " + err + "\n" + Indent
  }

  /** Python's truthiness of Test.diff: a failing test has a non-empty diff; None and '' mean passed. */
  predicate IsFailing(diff: Option<string>) {
    diff.Some? && diff.value != ""
  }

  /** sub occurs in s. */
  predicate Contains(s: string, sub: string) {
    exists i, j :: 0 <= i <= j <= |s| && s[i..j] == sub
  }

  /** What Test.run stores in diff once the process ended, or the RuntimeError (Failure) diff raises. */
  function Classify(outcome: Outcome, expected: string, ops: seq<Opcode>, colour: bool): Result<Option<string>, string> {
    match outcome
    case Timeout => Success(Some(Red(TimeLimitMessage, colour)))
    case Completed(out, err) =>
      if err.Some? && err.value != "" then Success(Some(ErrorReport(out, err.value)))
      else Compare(out, expected, ops, colour)
  }

  /** A run passes when it stores a diff that is not truthy. */
  predicate Passes(r: Result<Option<string>, string>) {
    r.Success? && !IsFailing(r.value)
  }

  /**
   * A timeout and a non-empty error stream always fail, the latter with a
   * report holding both streams; otherwise the test passes exactly when
   * every opcode of the comparison is 'equal', and then the output is the
   * expected text.
   */
  lemma RunVerdict(outcome: Outcome, expected: string, ops: seq<Opcode>, colour: bool)
    requires outcome.Completed? ==> WellFormed(ops, outcome.out, expected)
    ensures outcome.Timeout? ==>
      Classify(outcome, expected, ops, colour).Success? && IsFailing(Classify(outcome, expected, ops, colour).value)
    ensures outcome.Completed? && outcome.err.Some? && outcome.err.value != "" ==>
      exists m :: Classify(outcome, expected, ops, colour) == Success(Some(m)) && m != ""
        && Contains(m, outcome.out) && Contains(m, outcome.err.value)
    ensures Passes(Classify(outcome, expected, ops, colour)) <==>
      outcome.Completed? && (outcome.err.None? || outcome.err.value == "") && AllEqual(ops)
    ensures Passes(Classify(outcome, expected, ops, colour)) ==> outcome.out == expected
  {
    match outcome
    case Timeout =>
    case Completed(out, err) =>
      if err.Some? && err.value != "" {
        ErrorReportHolds(out, err.value);
      } else {
        DiffVerdict(out, expected, ops, colour);
      }
  }

  /**
   * When the matcher matches identical texts as identical, a run passes
   * exactly when its process completed with an empty error stream and its
   * output is the expected text.
   */
  lemma RunPassesIff(outcome: Outcome, expected: string, ops: seq<Opcode>, colour: bool)
    requires outcome.Completed? ==> Matched(ops, outcome.out, expected)
    ensures Passes(Classify(outcome, expected, ops, colour)) <==>
      outcome.Completed? && (outcome.err.None? || outcome.err.value == "") && outcome.out == expected
  {
    RunVerdict(outcome, expected, ops, colour);
    if outcome.Completed? {
      DiffNoneIff(outcome.out, expected, ops, colour);
    }
  }

  /** The error report is never empty and holds both captured streams. */
  lemma ErrorReportHolds(out: string, err: string)
    ensures ErrorReport(out, err) != ""
    ensures Contains(ErrorReport(out, err), out) && Contains(ErrorReport(out, err), err)
  {
    var m := ErrorReport(out, err);
    var head := "Encountered error running test:\n" + Indent + "Output: ";
    var middle := head + out + "\n" + Indent + "Error output: ";
    assert m[|head|..|head| + |out|] == out;
    assert m[|middle|..|middle| + |err|] == err;
  }

  // ---------------------------------------------------------------------------
  // The test object.

  /** A loaded test: its fields are fixed at construction; run overwrites diff. */
  class Test {
    const config: TestCase
    var diff: Option<string>

    constructor (config: TestCase)
      ensures this.config == config && diff == Some("")
    {
      this.config := config;
      diff := Some("");
    }

    /** Test.run once the process ended: store the classification in diff; a RuntimeError leaves diff as it was. */
    method Run(outcome: Outcome, ops: seq<Opcode>, colour: bool) returns (r: Result<(), string>)
      modifies this
      ensures var c := Classify(outcome, config.expected, ops, colour);
        if c.Success? then r == Success(()) && diff == c.value else r == Failure(c.error) && diff == old(diff)
    {
      match outcome
      case Timeout =>
        diff := Some(Red(TimeLimitMessage, colour));
        r := Success(());
      case Completed(out, err) =>
        if err.Some? && err.value != "" {
          diff := Some(ErrorReport(out, err.value));
          r := Success(());
        } else {
          var d := Diff(out, config.expected, ops, colour);
          match d
          case Success(v) =>
            diff := v;
            r := Success(());
          case Failure(e) =>
            r := Failure(e);
        }
    }
  }

  /** Test(test_file, working_directory) on a decoded record: a fresh test, or the error that ends loading. */
  method NewTest(data: map<string, Json>, testFile: string, workingDirectory: string, isFile: set<string>)
    returns (r: Result<Test, LoadError>)
    ensures Construct(data, testFile, workingDirectory, isFile).Failure? ==>
      r == Failure(Construct(data, testFile, workingDirectory, isFile).error)
    ensures Construct(data, testFile, workingDirectory, isFile).Success? ==>
      r.Success? && fresh(r.value) && r.value.diff == Some("")
      && r.value.config == Construct(data, testFile, workingDirectory, isFile).value
  {
    match Construct(data, testFile, workingDirectory, isFile)
    case Failure(e) =>
      r := Failure(e);
    case Success(c) =>
      var t := new Test(c);
      r := Success(t);
  }
}
