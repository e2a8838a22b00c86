/**
 * The diff renderer: turns the opcode list that a sequence matcher computed
 * for (actual, expected) into one annotated string. Equal spans are copied,
 * inserted text (present only in expected) is wrapped green, deleted text
 * (present only in actual) is wrapped red, and a replaced span is shown red
 * then green. The result is None when nothing changed, and an opcode tag
 * outside the four known ones raises a RuntimeError.
 *
 * The matcher itself is not modelled: its opcodes are an input. WellFormed
 * states what difflib guarantees about them and is assumed only by lemmas.
 */
module TextDiff {
  import opened Wrappers
  import opened Colours
  import opened Subsequences

  /** One opcode (tag, a0, a1, b0, b1): span a[a0:a1] of actual against b[b0:b1] of expected. */
  datatype Opcode = Opcode(tag: string, a0: nat, a1: nat, b0: nat, b1: nat)

  /** Python's slice s[i:j] for non-negative bounds: both bounds are clamped to the string. */
  function Slice(s: string, i: nat, j: nat): (r: string)
    ensures i <= j <= |s| ==> r == s[i..j]
    ensures |r| <= |s|
  {
    var lo := if i < |s| then i else |s|;
    var hi := if j < lo then lo else if j < |s| then j else |s|;
    s[lo..hi]
  }

  predicate IsKnown(tag: string) {
    tag == "equal" || tag == "insert" || tag == "delete" || tag == "replace"
  }

  predicate AllKnown(ops: seq<Opcode>) {
    KnownBefore(ops, |ops|)
  }

  /** The first n opcodes all have known tags. */
  predicate KnownBefore(ops: seq<Opcode>, n: nat)
    requires n <= |ops|
  {
    forall k :: 0 <= k < n ==> IsKnown(ops[k].tag)
  }

  predicate AllEqual(ops: seq<Opcode>) {
    EqualBefore(ops, |ops|)
  }

  /** The first n opcodes are all 'equal'. */
  predicate EqualBefore(ops: seq<Opcode>, n: nat)
    requires n <= |ops|
  {
    forall k :: 0 <= k < n ==> ops[k].tag == "equal"
  }

  /** The text one opcode contributes to the rendering. */
  function Piece(op: Opcode, a: string, b: string, colour: bool): string
    requires IsKnown(op.tag)
  {
    if op.tag == "equal" then Slice(a, op.a0, op.a1)
    else if op.tag == "insert" then Green(Slice(b, op.b0, op.b1), colour)
    else if op.tag == "delete" then Red(Slice(a, op.a0, op.a1), colour)
    else Red(Slice(a, op.a0, op.a1), colour) + Green(Slice(b, op.b0, op.b1), colour)
  }

  /** The in-order concatenation of the pieces of all opcodes. */
  function Render(ops: seq<Opcode>, a: string, b: string, colour: bool): string
    requires AllKnown(ops)
  {
    if ops == [] then "" else Piece(ops[0], a, b, colour) + Render(ops[1..], a, b, colour)
  }

  /** The tag of the first opcode that is not one of the four known tags, if any. */
  function UnknownTag(ops: seq<Opcode>): Option<string> {
    if ops == [] then None
    else if !IsKnown(ops[0].tag) then Some(ops[0].tag)
    else UnknownTag(ops[1..])
  }

  /** There is no unknown tag exactly when all are known; otherwise the one reported is the first. */
  lemma {:induction false} UnknownTagSpec(ops: seq<Opcode>)
    ensures UnknownTag(ops) == None <==> AllKnown(ops)
    ensures UnknownTag(ops).Some? ==>
      exists k :: 0 <= k < |ops| && ops[k].tag == UnknownTag(ops).value && !IsKnown(ops[k].tag) && KnownBefore(ops, k)
  {
    if ops != [] {
      UnknownTagSpec(ops[1..]);
      assert forall k | 0 <= k < |ops| - 1 :: ops[1..][k] == ops[k + 1];
      if IsKnown(ops[0].tag) && UnknownTag(ops).Some? {
        var k :| 0 <= k < |ops[1..]| && ops[1..][k].tag == UnknownTag(ops).value && !IsKnown(ops[1..][k].tag) && KnownBefore(ops[1..], k);
        assert KnownBefore(ops, k + 1);
      }
    }
  }

  /** The message of the RuntimeError raised for an unknown tag. */
  function UnexpectedOpcode(tag: string): string {
    "Unexpected OpCode \"" + tag + "\""
  }

  /** What diff(actual, expected) returns (Success) or raises (Failure), given the matcher's opcodes. */
  function Compare(actual: string, expected: string, ops: seq<Opcode>, colour: bool): Result<Option<string>, string> {
    match UnknownTag(ops)
    case Some(tag) => Failure(UnexpectedOpcode(tag))
    case None =>
      UnknownTagSpec(ops);
      if AllEqual(ops) then Success(None) else Success(Some(RenderBefore(ops, |ops|, actual, expected, colour)))
  }

  /** Joins a list of strings, as ''.join(parts). */
  function Concat(parts: seq<string>): string {
    if parts == [] then "" else Concat(parts[..|parts| - 1]) + parts[|parts| - 1]
  }

  /** The rendering of the opcode list; raises (Failure) at the first unknown tag. */
  method Diff(actual: string, expected: string, ops: seq<Opcode>, colour: bool) returns (r: Result<Option<string>, string>)
    ensures r == Compare(actual, expected, ops, colour)
  {
    var changed := false;
    var output: seq<string> := [];
    for i := 0 to |ops|
      invariant KnownBefore(ops, i)
      invariant Concat(output) == RenderBefore(ops, i, actual, expected, colour)
      invariant changed <==> !EqualBefore(ops, i)
    {
      var op := ops[i];
      if !IsKnown(op.tag) {
        FirstUnknown(ops, i, actual, expected, colour);
        return Failure(UnexpectedOpcode(op.tag));
      }
      if op.tag != "equal" {
        changed := true;
      }
      var piece := Piece(op, actual, expected, colour);
      RenderStep(ops, i, output, piece, actual, expected, colour);
      output := output + [piece];
    }
    DiffDone(ops, output, changed, actual, expected, colour);
    r := if changed then Success(Some(Concat(output))) else Success(None);
  }

  /** After the loop has seen every opcode, its output is what Compare describes. */
  lemma DiffDone(ops: seq<Opcode>, output: seq<string>, changed: bool, a: string, b: string, colour: bool)
    requires KnownBefore(ops, |ops|)
    requires Concat(output) == RenderBefore(ops, |ops|, a, b, colour)
    requires changed <==> !EqualBefore(ops, |ops|)
    ensures Compare(a, b, ops, colour) == if changed then Success(Some(Concat(output))) else Success(None)
  {
    UnknownTagSpec(ops);
  }

  /** One iteration of diff's loop extends both the output and the rendering by the piece of opcode i. */
  lemma RenderStep(ops: seq<Opcode>, i: nat, output: seq<string>, piece: string, a: string, b: string, colour: bool)
    requires i < |ops| && KnownBefore(ops, i) && IsKnown(ops[i].tag)
    requires Concat(output) == RenderBefore(ops, i, a, b, colour)
    requires piece == Piece(ops[i], a, b, colour)
    ensures KnownBefore(ops, i + 1)
    ensures Concat(output + [piece]) == RenderBefore(ops, i + 1, a, b, colour)
    ensures EqualBefore(ops, i + 1) <==> EqualBefore(ops, i) && ops[i].tag == "equal"
  {
    assert (output + [piece])[..|output|] == output;
  }

  /** The rendering of the first n opcodes, built from the back as the loop of diff builds it. */
  function RenderBefore(ops: seq<Opcode>, n: nat, a: string, b: string, colour: bool): string
    requires n <= |ops| && KnownBefore(ops, n)
  {
    if n == 0 then "" else RenderBefore(ops, n - 1, a, b, colour) + Piece(ops[n - 1], a, b, colour)
  }

  lemma {:induction false} RenderBeforePrefix(ops: seq<Opcode>, n: nat, a: string, b: string, colour: bool)
    requires n <= |ops| && KnownBefore(ops, n)
    ensures AllKnown(ops[..n])
    ensures RenderBefore(ops, n, a, b, colour) == Render(ops[..n], a, b, colour)
  {
    if n == 0 {
      assert ops[..0] == [];
    } else {
      var init, op := ops[..n - 1], ops[n - 1];
      assert init + [op] == ops[..n];
      RenderBeforePrefix(ops, n - 1, a, b, colour);
      RenderSnoc(init, op, a, b, colour);
      assert RenderBefore(ops, n, a, b, colour) == Render(init, a, b, colour) + Piece(op, a, b, colour);
    }
  }

  lemma RenderBeforeAll(ops: seq<Opcode>, a: string, b: string, colour: bool)
    requires AllKnown(ops)
    ensures RenderBefore(ops, |ops|, a, b, colour) == Render(ops, a, b, colour)
  {
    RenderBeforePrefix(ops, |ops|, a, b, colour);
    assert ops[..|ops|] == ops;
  }

  /** The opcode at index i is the first with an unknown tag. */
  lemma {:induction false} FirstUnknown(ops: seq<Opcode>, i: nat, a: string, b: string, colour: bool)
    requires i < |ops| && KnownBefore(ops, i) && !IsKnown(ops[i].tag)
    ensures UnknownTag(ops) == Some(ops[i].tag)
    ensures Compare(a, b, ops, colour) == Failure(UnexpectedOpcode(ops[i].tag))
  {
    if i > 0 {
      assert IsKnown(ops[0].tag);
      assert ops[1..][i - 1] == ops[i];
      assert KnownBefore(ops[1..], i - 1) by {
        forall k | 0 <= k < i - 1 ensures IsKnown(ops[1..][k].tag) { assert ops[1..][k] == ops[k + 1]; }
      }
      FirstUnknown(ops[1..], i - 1, a, b, colour);
    }
  }

  lemma {:induction false} RenderSnoc(ops: seq<Opcode>, op: Opcode, a: string, b: string, colour: bool)
    requires AllKnown(ops) && IsKnown(op.tag)
    ensures AllKnown(ops + [op])
    ensures Render(ops + [op], a, b, colour) == Render(ops, a, b, colour) + Piece(op, a, b, colour)
  {
    if ops != [] {
      assert (ops + [op])[0] == ops[0];
      assert (ops + [op])[1..] == ops[1..] + [op];
      RenderSnoc(ops[1..], op, a, b, colour);
      AppendAssoc(Piece(ops[0], a, b, colour), Render(ops[1..], a, b, colour), Piece(op, a, b, colour));
    }
  }

  lemma AppendAssoc(x: string, y: string, z: string)
    ensures x + (y + z) == (x + y) + z
  {
  }

  // ---------------------------------------------------------------------------
  // What difflib guarantees about its opcodes, and what follows for the rendering.

  /** Starting at index i of a and index j of b, the opcodes cover the rest of both strings, in order and without gaps. */
  ghost predicate TilesFrom(ops: seq<Opcode>, i: nat, j: nat, a: string, b: string)
    decreases |ops|
  {
    if ops == [] then i == |a| && j == |b|
    else
      && ops[0].a0 == i <= ops[0].a1
      && ops[0].b0 == j <= ops[0].b1
      && TilesFrom(ops[1..], ops[0].a1, ops[0].b1, a, b)
  }

  /** The shape of each opcode: equal spans hold equal text; insert, delete and replace spans are non-empty on the sides they touch. */
  ghost predicate ShapeOk(op: Opcode, a: string, b: string) {
    && (op.tag == "equal" ==> Slice(a, op.a0, op.a1) == Slice(b, op.b0, op.b1))
    && (op.tag == "insert" ==> op.a0 == op.a1 && op.b0 < op.b1)
    && (op.tag == "delete" ==> op.a0 < op.a1 && op.b0 == op.b1)
    && (op.tag == "replace" ==> op.a0 < op.a1 && op.b0 < op.b1)
  }

  ghost predicate Shaped(ops: seq<Opcode>, a: string, b: string) {
    forall k :: 0 <= k < |ops| ==> ShapeOk(ops[k], a, b)
  }

  /** The opcodes are a valid edit script from a (actual) to b (expected). */
  ghost predicate WellFormed(ops: seq<Opcode>, a: string, b: string) {
    TilesFrom(ops, 0, 0, a, b) && Shaped(ops, a, b)
  }

  /**
   * A valid edit script that also matches identical texts as identical:
   * get_opcodes gives one 'equal' span for two equal texts (none when both
   * are empty), so all its opcodes are 'equal'.
   */
  ghost predicate Matched(ops: seq<Opcode>, a: string, b: string) {
    WellFormed(ops, a, b) && (a == b ==> AllEqual(ops))
  }

  /** The text of actual that the rendering displays: every span but the inserted ones. */
  function ActualSide(ops: seq<Opcode>, a: string): string {
    if ops == [] then ""
    else (if ops[0].tag == "insert" then "" else Slice(a, ops[0].a0, ops[0].a1)) + ActualSide(ops[1..], a)
  }

  /** The text of expected that the rendering displays: every span but the deleted ones. */
  function ExpectedSide(ops: seq<Opcode>, b: string): string {
    if ops == [] then ""
    else (if ops[0].tag == "delete" then "" else Slice(b, ops[0].b0, ops[0].b1)) + ExpectedSide(ops[1..], b)
  }

  /** Total length of the equal spans (shown once, though present in both inputs). */
  function EqualLength(ops: seq<Opcode>): int {
    if ops == [] then 0
    else (if ops[0].tag == "equal" then ops[0].a1 - ops[0].a0 else 0) + EqualLength(ops[1..])
  }

  /** Number of colour wrappers the rendering applies: one per insert or delete, two per replace. */
  function Wraps(ops: seq<Opcode>): nat {
    if ops == [] then 0
    else
      var here := if ops[0].tag == "replace" then 2 else if ops[0].tag == "insert" || ops[0].tag == "delete" then 1 else 0;
      here + Wraps(ops[1..])
  }

  lemma {:induction false} TilesBounded(ops: seq<Opcode>, i: nat, j: nat, a: string, b: string)
    requires TilesFrom(ops, i, j, a, b)
    ensures i <= |a| && j <= |b|
    decreases |ops|
  {
    if ops != [] {
      TilesBounded(ops[1..], ops[0].a1, ops[0].b1, a, b);
    }
  }

  lemma ShapedTail(ops: seq<Opcode>, a: string, b: string)
    requires ops != [] && Shaped(ops, a, b)
    ensures ShapeOk(ops[0], a, b) && Shaped(ops[1..], a, b)
  {
    assert forall k | 0 <= k < |ops| - 1 :: ops[1..][k] == ops[k + 1];
  }

  /** Only 'equal' opcodes: both inputs are the same text, and the rendering is that text. */
  lemma {:induction false} AllEqualCopies(ops: seq<Opcode>, i: nat, j: nat, a: string, b: string, colour: bool)
    requires TilesFrom(ops, i, j, a, b) && Shaped(ops, a, b) && AllEqual(ops)
    ensures AllKnown(ops)
    ensures i <= |a| && j <= |b| && a[i..] == b[j..] && Render(ops, a, b, colour) == a[i..]
    decreases |ops|
  {
    TilesBounded(ops, i, j, a, b);
    if ops != [] {
      var op := ops[0];
      ShapedTail(ops, a, b);
      assert ops[0].tag == "equal";
      assert AllEqual(ops[1..]) by {
        forall k | 0 <= k < |ops| - 1 ensures ops[1..][k].tag == "equal" { assert ops[1..][k] == ops[k + 1]; }
      }
      AllEqualCopies(ops[1..], op.a1, op.b1, a, b, colour);
      assert ShapeOk(op, a, b);
      SuffixSplit(a, i, op.a1);
      SuffixSplit(b, j, op.b1);
    }
  }

  lemma SuffixSplit(s: string, i: nat, m: nat)
    requires i <= m <= |s|
    ensures s[i..] == s[i..m] + s[m..]
  {
  }

  /** What the rendering displays of each input, read in order, is that whole input. */
  lemma {:induction false} SidesFrom(ops: seq<Opcode>, i: nat, j: nat, a: string, b: string)
    requires TilesFrom(ops, i, j, a, b) && Shaped(ops, a, b)
    ensures i <= |a| && j <= |b|
    ensures ActualSide(ops, a) == a[i..] && ExpectedSide(ops, b) == b[j..]
    decreases |ops|
  {
    TilesBounded(ops, i, j, a, b);
    if ops != [] {
      var op := ops[0];
      ShapedTail(ops, a, b);
      SidesFrom(ops[1..], op.a1, op.b1, a, b);
      assert a[i..] == a[i..op.a1] + a[op.a1..];
      assert b[j..] == b[j..op.b1] + b[op.b1..];
    }
  }

  lemma Sides(ops: seq<Opcode>, a: string, b: string)
    requires WellFormed(ops, a, b)
    ensures ActualSide(ops, a) == a && ExpectedSide(ops, b) == b
  {
    SidesFrom(ops, 0, 0, a, b);
  }

  /** Without colour, the rendering holds every character of both inputs once, except that equal text appears once for both. */
  lemma {:induction false} PlainLengthFrom(ops: seq<Opcode>, i: nat, j: nat, a: string, b: string)
    requires TilesFrom(ops, i, j, a, b) && Shaped(ops, a, b) && AllKnown(ops)
    ensures i <= |a| && j <= |b|
    ensures |Render(ops, a, b, false)| == (|a| - i) + (|b| - j) - EqualLength(ops)
    decreases |ops|
  {
    TilesBounded(ops, i, j, a, b);
    if ops != [] {
      var op := ops[0];
      ShapedTail(ops, a, b);
      assert AllKnown(ops[1..]) by {
        forall k | 0 <= k < |ops| - 1 ensures IsKnown(ops[1..][k].tag) { assert ops[1..][k] == ops[k + 1]; }
      }
      PlainLengthFrom(ops[1..], op.a1, op.b1, a, b);
      assert |Slice(a, op.a0, op.a1)| == op.a1 - op.a0;
      assert |Slice(b, op.b0, op.b1)| == op.b1 - op.b0;
    }
  }

  lemma PlainLength(ops: seq<Opcode>, a: string, b: string)
    requires WellFormed(ops, a, b) && AllKnown(ops)
    ensures |Render(ops, a, b, false)| == |a| + |b| - EqualLength(ops)
  {
    PlainLengthFrom(ops, 0, 0, a, b);
  }

  lemma KnownTail(ops: seq<Opcode>)
    requires ops != [] && AllKnown(ops)
    ensures IsKnown(ops[0].tag) && AllKnown(ops[1..])
  {
    assert forall k | 0 <= k < |ops| - 1 :: ops[1..][k] == ops[k + 1];
  }

  /** Colour mode adds exactly one marker pair per wrapped span and changes nothing else in length; equal spans are never wrapped. */
  lemma {:induction false} ColourLength(ops: seq<Opcode>, a: string, b: string)
    requires AllKnown(ops)
    ensures |Render(ops, a, b, true)| == |Render(ops, a, b, false)| + MarkerLength * Wraps(ops)
    ensures Wraps(ops) == 0 <==> AllEqual(ops)
    ensures AllEqual(ops) ==> Render(ops, a, b, true) == Render(ops, a, b, false)
  {
    if ops != [] {
      KnownTail(ops);
      ColourLength(ops[1..], a, b);
      assert AllEqual(ops) <==> ops[0].tag == "equal" && AllEqual(ops[1..]) by {
        assert forall k | 0 <= k < |ops| - 1 :: ops[1..][k] == ops[k + 1];
      }
    }
  }

  /** The colour and plain renderings coincide exactly when nothing changed. */
  lemma ColourMatchesPlain(ops: seq<Opcode>, a: string, b: string)
    requires AllKnown(ops)
    ensures Render(ops, a, b, true) == Render(ops, a, b, false) <==> AllEqual(ops)
  {
    ColourLength(ops, a, b);
  }

  /** A rendering with some change in it is never the empty string. */
  lemma {:induction false} ChangedNotEmpty(ops: seq<Opcode>, i: nat, j: nat, a: string, b: string, colour: bool)
    requires TilesFrom(ops, i, j, a, b) && Shaped(ops, a, b) && AllKnown(ops) && !AllEqual(ops)
    ensures Render(ops, a, b, colour) != ""
    decreases |ops|
  {
    var op := ops[0];
    ShapedTail(ops, a, b);
    KnownTail(ops);
    TilesBounded(ops[1..], op.a1, op.b1, a, b);
    if op.tag == "equal" {
      assert !AllEqual(ops[1..]) by {
        forall k | 0 <= k < |ops| - 1 ensures ops[1..][k] == ops[k + 1] { }
      }
      ChangedNotEmpty(ops[1..], op.a1, op.b1, a, b, colour);
    } else if op.tag == "insert" {
      assert |Slice(b, op.b0, op.b1)| > 0;
    } else {
      assert |Slice(a, op.a0, op.a1)| > 0;
    }
  }

  /**
   * diff(actual, expected) returns None exactly when every opcode is 'equal',
   * and then the two texts are identical; when they differ it returns a
   * non-empty string, unless an unknown tag makes it raise.
   */
  lemma DiffVerdict(actual: string, expected: string, ops: seq<Opcode>, colour: bool)
    requires WellFormed(ops, actual, expected)
    ensures Compare(actual, expected, ops, colour) == Success(None) <==> AllEqual(ops)
    ensures Compare(actual, expected, ops, colour) == Success(None) ==> actual == expected
    ensures Compare(actual, expected, ops, colour).Failure? <==> !AllKnown(ops)
    ensures AllKnown(ops) && !AllEqual(ops) ==>
      Compare(actual, expected, ops, colour) == Success(Some(Render(ops, actual, expected, colour)))
      && Render(ops, actual, expected, colour) != ""
    ensures actual != expected && AllKnown(ops) ==>
      exists s :: Compare(actual, expected, ops, colour) == Success(Some(s)) && s != ""
  {
    UnknownTagSpec(ops);
    if AllKnown(ops) {
      RenderBeforeAll(ops, actual, expected, colour);
    }
    if AllEqual(ops) {
      AllEqualCopies(ops, 0, 0, actual, expected, colour);
    } else if AllKnown(ops) {
      ChangedNotEmpty(ops, 0, 0, actual, expected, colour);
    }
  }

  /** When the matcher matches identical texts as identical, diff returns None exactly for identical texts. */
  lemma DiffNoneIff(actual: string, expected: string, ops: seq<Opcode>, colour: bool)
    requires Matched(ops, actual, expected)
    ensures AllEqual(ops) <==> actual == expected
    ensures Compare(actual, expected, ops, colour) == Success(None) <==> actual == expected
  {
    DiffVerdict(actual, expected, ops, colour);
  }

  // ---------------------------------------------------------------------------
  // The rendering shows both texts.

  /** Each wrapper keeps its text, in order, between its markers. */
  lemma WrapKeeps(s: string, colour: bool)
    ensures IsSubsequence(s, Red(s, colour)) && IsSubsequence(s, Green(s, colour))
  {
    if colour {
      Infix(s, RedCode, ResetCode);
      Infix(s, GreenCode, ResetCode);
    } else {
      SubsequenceRefl(s);
    }
  }

  /** The rendering shows, in order, every span of actual that is not an insert. */
  lemma {:induction false} RenderShowsActual(ops: seq<Opcode>, a: string, b: string, colour: bool)
    requires AllKnown(ops)
    ensures IsSubsequence(ActualSide(ops, a), Render(ops, a, b, colour))
    decreases |ops|
  {
    if ops != [] {
      var op := ops[0];
      KnownTail(ops);
      RenderShowsActual(ops[1..], a, b, colour);
      var sa := Slice(a, op.a0, op.a1);
      var part := if op.tag == "insert" then "" else sa;
      var piece := Piece(op, a, b, colour);
      assert IsSubsequence(part, piece) by {
        if op.tag == "equal" {
          SubsequenceRefl(sa);
        } else if op.tag == "delete" {
          WrapKeeps(sa, colour);
        } else if op.tag == "replace" {
          WrapKeeps(sa, colour);
          SubsequenceAppend(sa, Red(sa, colour), Green(Slice(b, op.b0, op.b1), colour));
        }
      }
      SubsequenceConcat(part, piece, ActualSide(ops[1..], a), Render(ops[1..], a, b, colour));
    }
  }

  /** The rendering shows, in order, every span of expected that is not a delete. */
  lemma {:induction false} RenderShowsExpected(ops: seq<Opcode>, a: string, b: string, colour: bool)
    requires AllKnown(ops) && Shaped(ops, a, b)
    ensures IsSubsequence(ExpectedSide(ops, b), Render(ops, a, b, colour))
    decreases |ops|
  {
    if ops != [] {
      var op := ops[0];
      KnownTail(ops);
      ShapedTail(ops, a, b);
      RenderShowsExpected(ops[1..], a, b, colour);
      var sb := Slice(b, op.b0, op.b1);
      var part := if op.tag == "delete" then "" else sb;
      var piece := Piece(op, a, b, colour);
      assert IsSubsequence(part, piece) by {
        if op.tag == "equal" {
          SubsequenceRefl(sb);
        } else if op.tag == "insert" {
          WrapKeeps(sb, colour);
        } else if op.tag == "replace" {
          WrapKeeps(sb, colour);
          SubsequenceConcat([], Red(Slice(a, op.a0, op.a1), colour), sb, Green(sb, colour));
          assert [] + sb == sb;
        }
      }
      SubsequenceConcat(part, piece, ExpectedSide(ops[1..], b), Render(ops[1..], a, b, colour));
    }
  }

  /** Both inputs appear in full, in order, in the rendering of a valid edit script, with or without colour. */
  lemma RenderShowsBoth(ops: seq<Opcode>, a: string, b: string, colour: bool)
    requires WellFormed(ops, a, b) && AllKnown(ops)
    ensures IsSubsequence(a, Render(ops, a, b, colour)) && IsSubsequence(b, Render(ops, a, b, colour))
  {
    Sides(ops, a, b);
    RenderShowsActual(ops, a, b, colour);
    RenderShowsExpected(ops, a, b, colour);
  }

  /** A diff that diff returns holds both texts in full, in order. */
  lemma DiffShowsBoth(actual: string, expected: string, ops: seq<Opcode>, colour: bool)
    requires WellFormed(ops, actual, expected)
    ensures var c := Compare(actual, expected, ops, colour);
      c.Success? && c.value.Some? ==> IsSubsequence(actual, c.value.value) && IsSubsequence(expected, c.value.value)
  {
    DiffVerdict(actual, expected, ops, colour);
    if AllKnown(ops) {
      RenderShowsBoth(ops, actual, expected, colour);
    }
  }
}
