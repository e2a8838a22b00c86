# autotest.py in Dafny

A verified model of the core of `autotest.py`, a command-line script that runs
a lab's JSON-described tests against a student's compiled binary and reports
coloured diffs. The model covers five parts of the script:

- **Colour wrappers** (`colours.dfy`). `Red` and `Green` wrap text in ANSI
  escape sequences. A `colour` flag makes both the identity, which is what
  `--no_colour` does by rebinding the global table.
- **The diff renderer** (`text_diff.dfy`). `Diff` is the loop of `diff`.
  It takes the opcode list of the sequence matcher as an input. It copies
  `equal` spans and wraps `insert` green, `delete` red and `replace` red then
  green. It returns `None` when nothing changed and raises on an unknown tag.
  - The specification functions are `Piece`, `Render`, `RenderBefore` and
    `Compare`.
  - `WellFormed` states the matcher's guarantees about the shape of its
    opcodes: the spans tile both texts in order, equal spans hold equal text,
    and change spans are non-empty.
  - `Matched` adds one more guarantee: identical texts get only `equal`
    opcodes.
  - Only lemmas assume these two.
- **Test construction** (`test_case.dfy`). `Construct` is `Test.__init__` on
  a decoded JSON record. It applies `get_optional` defaults and terminates
  input lines. It joins the expected lines and resolves the binary path.
  It reports the first missing key, wrong type or missing binary as an error.
- **Test objects and runs** (`test_case.dfy`). `Test` is the object whose
  `diff` field `Run` overwrites. `Classify` is the classification of
  `Test.run`: a timeout, output on the error stream, or a content diff.
- **Loading and running** (`loader.dfy`, `runner.dfy`).
  - `LoadTests` is the filter loop of `load_tests`. It has two aborts: no
    files, or nothing selected although a filter was given.
  - `RunTests` is the counting loop of `run_tests`. It collects the names of
    the tests whose diff is truthy and reports the pass count.

Where the script would call `exit()` or raise, the model returns a `Failure`:

- `LoadError` for `load_tests` and the constructor;
- the `RuntimeError` message for `diff`.

Two facts about the code shape the model:

- `exit()` without an argument ends the process with status 0. The model
  only says that loading stops, and with which reason.
- `Test.run` does not pipe the child's error stream (`autotest.py:97`), so
  `err` is always `None`. The model keeps `err` as an optional input, so the
  error-report branch is modelled but not claimed to be reachable.

## Model

| member | source | states |
|---|---|---|
| Colours.Red | autotest.py:17 | red wrapping adds exactly the escape-marker length in colour mode and nothing without colour |
| Colours.Green | autotest.py:17 | green wrapping adds exactly the escape-marker length in colour mode and nothing without colour |
| TextDiff.Slice | autotest.py:36-45 | Python's clamped slice `s[i:j]`: it is `s[i..j]` when the bounds are in range and is never longer than `s` |
| TextDiff.Diff | autotest.py:25-48 | the loop of `diff` returns exactly `Compare`: a RuntimeError for the first unknown tag, `None` when every opcode is equal, otherwise the joined pieces |
| TextDiff.UnknownTagSpec | autotest.py:46-47 | no opcode raises exactly when all tags are known; the tag reported is one whose predecessors are all known |
| TextDiff.FirstUnknown | autotest.py:46-47 | the first unknown tag decides the RuntimeError message, whatever follows it |
| TextDiff.RenderSnoc | autotest.py:34-45 | appending one opcode appends exactly its piece to the rendering |
| TextDiff.DiffVerdict | autotest.py:31-48 | for a valid edit script: `None` iff every opcode is equal, and then actual == expected; a RuntimeError iff some tag is unknown; otherwise the in-order rendering, which is non-empty, so differing texts always give a non-empty diff |
| TextDiff.AllEqualCopies | autotest.py:35-36 | when every opcode is equal, both texts are the same and the rendering is that text |
| TextDiff.ChangedNotEmpty | autotest.py:37-45 | a rendering containing a change is never the empty string |
| TextDiff.Sides | autotest.py:34-45 | for a valid edit script, the actual spans that the rendering shows (equal, delete, replace) concatenate to all of actual, and the expected spans it shows (equal, insert, replace) to all of expected |
| TextDiff.RenderShowsActual | autotest.py:34-45 | the rendering contains, in order, every span of actual that is not an insert |
| TextDiff.RenderShowsExpected | autotest.py:34-45 | the rendering contains, in order, every span of expected that is not a delete |
| TextDiff.RenderShowsBoth | autotest.py:34-45 | for a valid edit script, both actual and expected are subsequences of the rendering, with or without colour |
| TextDiff.DiffShowsBoth | autotest.py:25-48 | any diff string `diff` returns holds both texts in full, in order |
| TextDiff.WrapKeeps | autotest.py:17 | each colour wrapper keeps its text, in order, between its markers |
| TextDiff.DiffNoneIff | autotest.py:31-48 | when the matcher matches identical texts as identical: every opcode is equal iff the texts are identical, and `diff` returns `None` iff they are identical |
| TextDiff.PlainLength | autotest.py:34-45 | without colour the rendering holds each input character once, except that equal text is shown once for both inputs |
| TextDiff.ColourLength | autotest.py:17 | colour mode adds one marker pair per wrapped span (one per insert or delete, two per replace) and wraps no equal span |
| TextDiff.ColourMatchesPlain | autotest.py:36-45 | the colour and plain renderings coincide exactly when every opcode is equal |
| TestCases.StemOfSpecFile | autotest.py:79 | the default name of a file found by globbing `directory + '*.json'` is the part the wildcard matched |
| TestCases.StringItems | autotest.py:85-87 | iterating a JSON value as strings: the items of a list of strings, the characters of a string, a TypeError otherwise |
| TestCases.SplitJoin | autotest.py:87 | joining newline-free lines with terminators loses nothing: the lines can be split back out |
| TestCases.Construct | autotest.py:73-93 | errors in the order the constructor meets them (binary, args, input, expected, missing file); success iff the record decodes and the binary exists; binary path, terminated input lines, joined expected text and args as built; each optional key verbatim when present and its default when absent, which is the `get_optional` of lines 74-75 |
| TestCases.Test.constructor | autotest.py:88 | a new test holds its configuration and an empty diff |
| TestCases.NewTest | autotest.py:73-93 | a fresh test object with an empty diff and the constructed configuration, or the constructor's error |
| TestCases.RunVerdict | autotest.py:101-111 | about `Classify`, the classification this part of `Test.run` makes: a timeout always fails; a non-empty error stream fails with a report holding both streams; otherwise the test passes iff every opcode is equal, and then the output is the expected text |
| TestCases.ErrorReportHolds | autotest.py:103-107 | the error report is non-empty and contains both the output and the error output |
| TestCases.RunPassesIff | autotest.py:101-111 | about `Classify`, when the matcher matches identical texts as identical: a run passes iff its process completed with an empty error stream and printed exactly the expected text |
| TestCases.Test.Run | autotest.py:101-111 | `diff` becomes `Classify` of the outcome; when the diff raises, the error is returned and `diff` keeps its old value |
| Loader.KeepIff | autotest.py:142-147 | a test is kept iff the exercise matches or is unset, the name matches or is unset, and challenges are allowed or it is no challenge |
| Loader.Collect | autotest.py:140-141 | every file's test in order, or the error of the first file that fails to build |
| Loader.SelectIsSubsequence | autotest.py:140-147 | the selected tests keep the order of the files |
| Loader.SelectMembers | autotest.py:140-147 | a test is selected iff it was built and passes the filter |
| Loader.SelectAll | autotest.py:140-147 | when the filter keeps every test, the selection is all of them |
| Loader.SelectEmpty | autotest.py:148-150 | the selection is empty iff the filter rejects every test |
| Loader.LoadAtFirstError | autotest.py:140-141 | the first file whose construction fails decides the load error |
| Loader.LoadVerdict | autotest.py:130-151 | "no tests available" iff there are no files; "no tests matched" iff all files build, a filter was given and the filter rejects every test; no filters and all files built means success; a success is an ordered subsequence of the built tests, all passing the filter |
| Loader.LoadBuilt | autotest.py:135-151 | the loop returns `LoadFrom`'s error, or fresh test objects with empty diffs whose configurations are exactly `LoadFrom`'s selection |
| Loader.LoadTests | autotest.py:130-151 | `load_tests`: the same, stated against `Load` on the files found |
| Runner.DiffsSpec | autotest.py:155-157 | the stored diffs are each run's classification, or the error of the first run that raises |
| Runner.FailedMembers | autotest.py:158-161 | a test's name is collected iff its diff is truthy |
| Runner.NoneFailed | autotest.py:166-169 | no name is collected iff no diff is truthy |
| Runner.FailedInOrder | autotest.py:155-161 | the failed names keep the order of the tests |
| Runner.RunFinishes | autotest.py:155-157 | `run_tests` finishes iff no run raises |
| Runner.RunCounts | autotest.py:153-169 | every test is counted; passed = total − failed; the failed names are those of the failing tests, in order; the all-passed branch is taken iff no diff is truthy |
| Runner.AllPassedIff | autotest.py:166-169 | for valid, known opcodes no run raises, and all pass iff every process completed with an empty error stream and every comparison was all-equal |
| Runner.AllPassedIffOutputs | autotest.py:166-169 | when the matcher also matches identical texts as identical: all tests pass iff every process completed with an empty error stream and printed exactly its expected text |
| Runner.RunTests | autotest.py:153-169 | the loop over the test objects returns exactly `RunSummary` of their configurations: the report, or the first RuntimeError |

## Left out

- The matcher's alignment algorithm (`SequenceMatcher`, `get_opcodes`) is not modelled. Its opcodes are an input. `WellFormed` and `Matched` are hypotheses about them, not proved facts.
- `TextDiff.DiffVerdict`, `TestCases.RunVerdict` and `Runner.AllPassedIff` assume only `WellFormed`. Under it they prove that `None` means identical texts, but not the converse: a valid edit script may delete and re-insert identical text. The converse (`diff(s, s)` is `None`, and a run whose output is the expected text passes) rests on the matcher. It is proved by `TextDiff.DiffNoneIff`, `TestCases.RunPassesIff` and `Runner.AllPassedIffOutputs` under the `Matched` hypothesis.
- `TextDiff.Diff`: the if/elif chain on the tag is split into two steps. A check for an unknown tag comes first; then the piece is computed by `Piece`. The pieces, the `changed` flag and the raised error are the same as the source's.
- Process execution is not modelled: `Popen`, writing the input lines, `communicate` and the real timeout. These are operating-system I/O. How a run ended is the `Outcome` input.
- JSON parsing, `open`, `glob.glob`, `os.getcwd` and `os.path.isfile` are file-system I/O. They are inputs: decoded records in found order, the working directory, and the set of existing files.
- `Json` number values: JSON numbers are modelled as integers. `time_limit` is only used as a wall-clock timeout, so real numbers do not matter.
- `Json` has no object values, so two kinds of record are left out. An object-valued `input`, `expected` or `args` would be iterated by its keys in Python. A top-level value that is not an object would make `data['binary']` raise `TypeError`. Records are modelled as maps from keys to non-object values.
- `TestCases.Construct`: `str(arg)` coercion of non-string `args` items is not modelled. Such a record becomes a `WrongType("args")` error, where Python would convert the items.
- `TestCases.Construct`: the default name uses the rules of `basename` and `splitext` for `/`-separated paths. Other platforms' separators are not modelled.
- `exit()` is modelled as a `Failure` result that carries the reason. The printed messages and the process exit status are not modelled.
- `show_diff` and every `print` are left out, because they are console output. The `show_diff` guard tests the module-level `diff` function, which is always truthy. Its only caller already checks `test.diff`, so this has no effect on the output.
- `validate_args`, `dir_name`, the argparse block and `--list` are left out. They are command-line plumbing over `glob` and `normpath`. The `--no_colour` switch is the `colour` parameter.
- `Loader.LoadBuilt`: the construction results of all files are an input computed up front. The source constructs each test inside the loop. Construction has no effect besides stopping, so the first failing file gives the same error as in the source.
- `Runner.RunTests`: it does not state which diff each test object holds afterwards. The same object can occur twice in the list, and later runs overwrite earlier ones.
