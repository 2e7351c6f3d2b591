/**
 * `zzz_imported_tools/Residual/FixExercises.py`: a cursor over the lines of
 * a chapter that copies everything up to the "Exercises" heading and then,
 * exercise by exercise, turns the backslash-continued lines of an exercise
 * into a fenced Scala listing.
 */
module FixExercisesModel {

  import opened Results
  import opened Text

  const ScalaFence := "    ```scala"
  const CloseFence := "    ```"

  /** `current_line()` at position `i`: the line, or "" at or past the end. */
  function LineAt(input: seq<string>, i: nat): (l: string)
    ensures i < |input| ==> l == input[i]
    ensures i >= |input| ==> l == ""
  {
    if i < |input| then input[i] else ""
  }

  /** The number of decimal digits at the start of `s`. */
  function LeadingDigits(s: string): (k: nat)
    ensures k <= |s|
  {
    if s != [] && IsDigit(s[0]) then 1 + LeadingDigits(s[1..]) else 0
  }

  /** The run of digits is the longest one: a digit at every position before `k`, none at `k`. */
  lemma {:induction false} LeadingDigitsRun(s: string)
    ensures var k := LeadingDigits(s);
      (forall i :: 0 <= i < k ==> IsDigit(s[i])) && (k < |s| ==> !IsDigit(s[k]))
  {
    if s != [] && IsDigit(s[0]) {
      LeadingDigitsRun(s[1..]);
    }
  }

  /** `re.match("\d+\.\s\s", line)`: digits, a dot and two whitespace characters open the line. */
  predicate ExerciseStart(line: string) {
    var d := LeadingDigits(line);
    d > 0 && d + 3 <= |line| && line[d] == '.' && IsSpace(line[d + 1]) && IsSpace(line[d + 2])
  }

  /** `line.endswith("\\")` */
  predicate EndsInBackslash(line: string) {
    |line| > 0 && line[|line| - 1] == '\\'
  }

  /** Line `h` is "Exercises" and the next line is its underline. */
  predicate Header(input: seq<string>, h: nat)
    requires h + 1 < |input|
  {
    input[h] == "Exercises" && StartsWith(input[h + 1], "---------")
  }

  /**
   * What `find_exercises` finds from `i` on: the first heading, none, or
   * the IndexError of an "Exercises" last line, whose underline is read
   * unguarded.
   */
  function FindHeader(input: seq<string>, i: nat): (r: Result<Option<nat>, string>)
    ensures r.Ok? && r.value.Some? ==> i <= r.value.value && r.value.value + 1 < |input|
    decreases |input| - i
  {
    if i >= |input| then Ok(None)
    else if input[i] == "Exercises" then
      if i + 1 >= |input| then Err("IndexError")
      else if StartsWith(input[i + 1], "---------") then Ok(Some(i))
      else FindHeader(input, i + 1)
    else FindHeader(input, i + 1)
  }

  /** The first exercise start at or after `i`, or the end of the input. */
  function SkipTo(input: seq<string>, i: nat): (j: nat)
    requires i <= |input|
    ensures i <= j <= |input|
    decreases |input| - i
  {
    if i < |input| && !ExerciseStart(input[i]) then SkipTo(input, i + 1) else i
  }

  /** The first line at or after `j` that is empty or ends in a backslash, or the end of the input. */
  function BodyEnd(input: seq<string>, j: nat): (k: nat)
    requires j <= |input|
    ensures j <= k <= |input|
    decreases |input| - j
  {
    if j < |input| && input[j] != "" && !EndsInBackslash(input[j]) then BodyEnd(input, j + 1) else j
  }

  /** The first empty line at or after `m`, or the end of the input: where the listing closes. */
  function ListingEnd(input: seq<string>, m: nat): (e: nat)
    requires m <= |input|
    ensures m <= e <= |input|
    decreases |input| - m
  {
    if m < |input| && input[m] != "" then ListingEnd(input, m + 1) else m
  }

  /** `SkipTo` stops at the first exercise start: no line before it is one. */
  lemma {:induction false} SkipToFirst(input: seq<string>, i: nat)
    requires i <= |input|
    ensures var j := SkipTo(input, i);
      (forall k :: i <= k < j ==> !ExerciseStart(input[k])) && (j < |input| ==> ExerciseStart(input[j]))
    decreases |input| - i
  {
    if i < |input| && !ExerciseStart(input[i]) {
      SkipToFirst(input, i + 1);
    }
  }

  /** `BodyEnd` stops at the first empty or backslash line. */
  lemma {:induction false} BodyEndFirst(input: seq<string>, j: nat)
    requires j <= |input|
    ensures var k := BodyEnd(input, j);
      (forall l :: j <= l < k ==> input[l] != "" && !EndsInBackslash(input[l])) &&
      (k < |input| ==> input[k] == "" || EndsInBackslash(input[k]))
    decreases |input| - j
  {
    if j < |input| && input[j] != "" && !EndsInBackslash(input[j]) {
      BodyEndFirst(input, j + 1);
    }
  }

  /** `ListingEnd` stops at the first empty line. */
  lemma {:induction false} ListingEndFirst(input: seq<string>, m: nat)
    requires m <= |input|
    ensures var e := ListingEnd(input, m);
      (forall l :: m <= l < e ==> input[l] != "") && (e < |input| ==> input[e] == "")
    decreases |input| - m
  {
    if m < |input| && input[m] != "" {
      ListingEndFirst(input, m + 1);
    }
  }

  /** A listing line as written: without its trailing backslash, if it has one. */
  function Unslash(line: string): (r: string)
    ensures EndsInBackslash(line) ==> r + "\\" == line
    ensures !EndsInBackslash(line) ==> r == line
  {
    if EndsInBackslash(line) then line[..|line| - 1] else line
  }

  /** Every line of a listing as written. */
  function Unslashed(lines: seq<string>): (rs: seq<string>)
    ensures |rs| == |lines|
    ensures forall i :: 0 <= i < |lines| ==> rs[i] == Unslash(lines[i])
  {
    if lines == [] then [] else [Unslash(lines[0])] + Unslashed(lines[1..])
  }

  /** A backslash line as it opens a listing: without its backslash, then the Scala fence. */
  function Opening(line: string): seq<string>
    requires line != []
  {
    [line[..|line| - 1], ScalaFence]
  }

  /*
   * The cursor of `fix_one_exercise` walks three phases: copying up to the
   * next exercise start, copying the exercise's body, and rewriting its
   * listing.  `Walk` gives the lines a phase outputs from a line on, up to
   * where that call of `fix_one_exercise` returns, and where it leaves the
   * cursor.  The lemmas `SkipShape`, `BodyShapeListing`, `BodyShapePlain`,
   * `ListingShape`, `OneExerciseListing` and `OneExercisePlain` state the
   * same results as slices of the input cut at `SkipTo`, `BodyEnd` and
   * `ListingEnd`.
   */
  datatype Phase = Skipping | InBody | InListing

  function Rank(p: Phase): nat {
    match p
    case Skipping => 2
    case InBody => 1
    case InListing => 0
  }

  /**
   * Skipping: `fix_one_exercise`'s first loop copies lines that do not
   * start an exercise.  InBody: its second loop copies lines up to an empty
   * one, unless a backslash line comes first, which loses its backslash and
   * opens the listing (`fix_backslashes`).  InListing: `fix_remainder`
   * writes each line without its backslash up to an empty line, then the
   * closing fence.
   */
  function Walk(input: seq<string>, i: nat, phase: Phase): (r: (seq<string>, nat))
    requires i <= |input|
    ensures i <= r.1 <= |input|
    ensures i < |input| && (phase.Skipping? || input[i] != "") ==> i < r.1
    decreases |input| - i, Rank(phase)
  {
    match phase
    case Skipping =>
      if i < |input| && !ExerciseStart(input[i]) then
        var rest := Walk(input, i + 1, Skipping);
        ([input[i]] + rest.0, rest.1)
      else Walk(input, i, InBody)
    case InBody =>
      if i < |input| && input[i] != "" then
        if EndsInBackslash(input[i]) then
          var rest := Walk(input, i + 1, InListing);
          (Opening(input[i]) + rest.0, rest.1)
        else
          var rest := Walk(input, i + 1, InBody);
          ([input[i]] + rest.0, rest.1)
      else ([], i)
    case InListing =>
      if i < |input| && input[i] != "" then
        var rest := Walk(input, i + 1, InListing);
        ([Unslash(input[i])] + rest.0, rest.1)
      else ([CloseFence], i)
  }

  /** The lines output by the exercise loop from line `i` on, until a call reports the end. */
  function Exercises(input: seq<string>, i: nat): seq<string>
    requires i <= |input|
    decreases |input| - i
  {
    var step := Walk(input, i, Skipping);
    if step.1 < |input| then step.0 + Exercises(input, step.1) else step.0
  }

  /**
   * The finished object: IndexError, or the output lines and
   * `has_exercises` (the position after the heading's underline, or none).
   */
  function Fixed(source: seq<string>): Result<(seq<string>, Option<nat>), string> {
    match FindHeader(source, 0)
    case Err(e) => Err(e)
    case Ok(None) => Ok((source, None))
    case Ok(Some(h)) => Ok((source[..h + 2] + Exercises(source, h + 2) + [""], Some(h + 2)))
  }

  /** The listing is the lines up to the next empty line, each without its backslash, and the closing fence. */
  lemma {:induction false} ListingShape(input: seq<string>, m: nat)
    requires m <= |input|
    ensures var e := ListingEnd(input, m);
      Walk(input, m, InListing) == (Unslashed(input[m..e]) + [CloseFence], e)
    decreases |input| - m
  {
    if m < |input| && input[m] != "" {
      ListingShape(input, m + 1);
      var e := ListingEnd(input, m);
      assert e == ListingEnd(input, m + 1);
      var lines := input[m..e];
      assert lines[0] == input[m] && lines[1..] == input[m + 1..e];
      assert Unslashed(lines) == [Unslash(input[m])] + Unslashed(input[m + 1..e]);
      var rest := Walk(input, m + 1, InListing);
      assert Walk(input, m, InListing) == ([Unslash(input[m])] + rest.0, rest.1);
      assert rest == (Unslashed(input[m + 1..e]) + [CloseFence], e);
      assert [Unslash(input[m])] + (Unslashed(input[m + 1..e]) + [CloseFence]) == Unslashed(lines) + [CloseFence];
    } else {
      assert ListingEnd(input, m) == m && Walk(input, m, InListing) == ([CloseFence], m);
      assert Unslashed(input[m..m]) + [CloseFence] == [CloseFence];
    }
  }

  /**
   * The body is copied up to its first empty or backslash line; a backslash
   * line is written without its backslash and followed by the opening fence
   * and the listing.
   */
  lemma {:induction false} BodyShapeListing(input: seq<string>, j: nat)
    requires j <= |input| && BodyEnd(input, j) < |input| && input[BodyEnd(input, j)] != ""
    ensures var k := BodyEnd(input, j);
      EndsInBackslash(input[k]) &&
      Walk(input, j, InBody) == (input[j..k] + (Opening(input[k]) + Walk(input, k + 1, InListing).0), Walk(input, k + 1, InListing).1)
    decreases |input| - j
  {
    var k := BodyEnd(input, j);
    var listing := Walk(input, k + 1, InListing);
    var tail := Opening(input[k]) + listing.0;
    if j < k {
      var rest := Walk(input, j + 1, InBody);
      assert EndsInBackslash(input[k]) && rest == (input[j + 1..k] + tail, listing.1) by {
        assert k == BodyEnd(input, j + 1);
        BodyShapeListing(input, j + 1);
      }
      assert Walk(input, j, InBody) == ([input[j]] + rest.0, rest.1);
      assert [input[j]] + input[j + 1..k] == input[j..k];
      Assoc([input[j]], input[j + 1..k], tail);
    } else {
      assert Walk(input, j, InBody) == (tail, listing.1);
      assert input[j..j] + tail == tail;
    }
  }

  /** Without a backslash line the body is copied up to the empty line or the end, where the cursor stops. */
  lemma {:induction false} BodyShapePlain(input: seq<string>, j: nat)
    requires j <= |input| && (BodyEnd(input, j) == |input| || input[BodyEnd(input, j)] == "")
    ensures var k := BodyEnd(input, j); Walk(input, j, InBody) == (input[j..k], k)
    decreases |input| - j
  {
    var k := BodyEnd(input, j);
    if j < k {
      BodyShapePlain(input, j + 1);
      var rest := Walk(input, j + 1, InBody);
      assert Walk(input, j, InBody) == ([input[j]] + rest.0, rest.1);
      assert [input[j]] + input[j + 1..k] == input[j..k];
    } else {
      assert Walk(input, j, InBody) == ([], j);
    }
  }

  /** Lines before the next exercise start are copied as they are. */
  lemma {:induction false} SkipShape(input: seq<string>, i: nat)
    requires i <= |input|
    ensures var j := SkipTo(input, i);
      Walk(input, i, Skipping) == (input[i..j] + Walk(input, j, InBody).0, Walk(input, j, InBody).1)
    decreases |input| - i
  {
    var j := SkipTo(input, i);
    var body := Walk(input, j, InBody);
    if i < |input| && !ExerciseStart(input[i]) {
      var rest := Walk(input, i + 1, Skipping);
      assert rest == (input[i + 1..j] + body.0, body.1) by {
        assert j == SkipTo(input, i + 1);
        SkipShape(input, i + 1);
      }
      assert Walk(input, i, Skipping) == ([input[i]] + rest.0, rest.1);
      assert [input[i]] + input[i + 1..j] == input[i..j];
      Assoc([input[i]], input[i + 1..j], body.0);
    } else {
      assert j == i && Walk(input, i, Skipping) == body;
      assert input[i..i] + body.0 == body.0;
    }
  }

  /**
   * One call that meets a backslash line, as slices of the input: everything
   * from the cursor up to that line (the first empty or backslash line after
   * the next exercise start) is copied; the backslash line loses its
   * backslash and opens a Scala listing that runs, backslashes dropped, to
   * the next empty line or the end, where the cursor stops.
   */
  lemma OneExerciseListing(input: seq<string>, i: nat)
    requires i <= |input|
    requires BodyEnd(input, SkipTo(input, i)) < |input| && input[BodyEnd(input, SkipTo(input, i))] != ""
    ensures var k := BodyEnd(input, SkipTo(input, i)); var m := ListingEnd(input, k + 1);
      EndsInBackslash(input[k]) &&
      Walk(input, i, Skipping) == (input[i..k] + (Opening(input[k]) + (Unslashed(input[k + 1..m]) + [CloseFence])), m)
  {
    var j := SkipTo(input, i);
    var k := BodyEnd(input, j);
    var m := ListingEnd(input, k + 1);
    var tail := Opening(input[k]) + (Unslashed(input[k + 1..m]) + [CloseFence]);
    assert Walk(input, k + 1, InListing) == (Unslashed(input[k + 1..m]) + [CloseFence], m) by {
      ListingShape(input, k + 1);
    }
    assert EndsInBackslash(input[k]) && Walk(input, j, InBody) == (input[j..k] + tail, m) by {
      BodyShapeListing(input, j);
    }
    assert Walk(input, i, Skipping) == (input[i..j] + (input[j..k] + tail), m) by {
      SkipShape(input, i);
    }
    assert input[i..j] + input[j..k] == input[i..k];
    Assoc(input[i..j], input[j..k], tail);
  }



  /**
   * One call that meets no backslash line copies everything from the cursor
   * up to the first empty line after the next exercise start, or to the
   * end, and stops there.
   */
  lemma OneExercisePlain(input: seq<string>, i: nat)
    requires i <= |input|
    requires BodyEnd(input, SkipTo(input, i)) == |input| || input[BodyEnd(input, SkipTo(input, i))] == ""
    ensures var k := BodyEnd(input, SkipTo(input, i)); Walk(input, i, Skipping) == (input[i..k], k)
  {
    var j := SkipTo(input, i);
    var k := BodyEnd(input, j);
    SkipShape(input, i);
    BodyShapePlain(input, j);
    assert input[i..j] + input[j..k] == input[i..k];
  }

  /** A call outputs every line it passes, plus two when it opens a listing (the opening and closing fences). */
  lemma OneExerciseLength(input: seq<string>, i: nat)
    requires i <= |input|
    ensures var k := BodyEnd(input, SkipTo(input, i));
      |Walk(input, i, Skipping).0| == Walk(input, i, Skipping).1 - i + (if k < |input| && input[k] != "" then 2 else 0)
  {
    var k := BodyEnd(input, SkipTo(input, i));
    if k < |input| && input[k] != "" {
      OneExerciseListing(input, i);
    } else {
      OneExercisePlain(input, i);
    }
  }

  /** Where no line ends in a backslash there is nothing to fix: the lines are copied unchanged. */
  lemma {:induction false} NoListingUnchanged(input: seq<string>, i: nat)
    requires i <= |input|
    requires forall l :: i <= l < |input| ==> !EndsInBackslash(input[l])
    ensures Exercises(input, i) == input[i..]
    decreases |input| - i
  {
    var j := SkipTo(input, i);
    var k := BodyEnd(input, j);
    BodyEndFirst(input, j);
    OneExercisePlain(input, i);
    assert Walk(input, i, Skipping) == (input[i..k], k);
    if k < |input| {
      NoListingUnchanged(input, k);
      assert Exercises(input, i) == input[i..k] + input[k..];
      assert input[i..] == input[i..k] + input[k..];
    }
  }

  /** The exercise loop never drops a line: it outputs at least as many lines as it passes. */
  lemma {:induction false} ExercisesLength(input: seq<string>, i: nat)
    requires i <= |input|
    ensures |Exercises(input, i)| >= |input| - i
    decreases |input| - i
  {
    OneExerciseLength(input, i);
    var next := Walk(input, i, Skipping).1;
    if next < |input| {
      ExercisesLength(input, next);
    }
  }

  /** A heading found from `i` on is the first one from `i` on, and no "Exercises" line before it is the last line. */
  lemma {:induction false} FindHeaderFound(input: seq<string>, i: nat)
    requires FindHeader(input, i).Ok? && FindHeader(input, i).value.Some?
    ensures var h := FindHeader(input, i).value.value;
      Header(input, h) && forall k :: i <= k < h ==> !Header(input, k)
    decreases |input| - i
  {
    if FindHeader(input, i) != Ok(Some(i)) {
      FindHeaderFound(input, i + 1);
    }
  }

  /** When nothing is found from `i` on there is no heading from `i` on. */
  lemma {:induction false} FindHeaderNone(input: seq<string>, i: nat)
    requires FindHeader(input, i) == Ok(None)
    ensures forall k :: i <= k && k + 1 < |input| ==> !Header(input, k)
    ensures i < |input| ==> input[|input| - 1] != "Exercises"
    decreases |input| - i
  {
    if i < |input| {
      FindHeaderNone(input, i + 1);
    }
  }

  /** The scan raises IndexError exactly when it reaches an "Exercises" last line without a heading before it. */
  lemma {:induction false} FindHeaderError(input: seq<string>, i: nat)
    ensures FindHeader(input, i).Err? <==>
      i < |input| && input[|input| - 1] == "Exercises" && forall k :: i <= k && k + 1 < |input| ==> !Header(input, k)
    ensures FindHeader(input, i).Err? ==> FindHeader(input, i).error == "IndexError"
    decreases |input| - i
  {
    if i < |input| {
      FindHeaderError(input, i + 1);
      if FindHeader(input, i).Ok? && FindHeader(input, i).value.Some? {
        FindHeaderFound(input, i);
      }
    }
  }

  /**
   * The finished object: IndexError only for an "Exercises" last line with no
   * heading before it; without a heading the output is the input; with one,
   * the output copies the input through the heading's underline, fixes the
   * exercises after it and ends with an empty line.
   */
  lemma FixedSpec(source: seq<string>)
    ensures Fixed(source).Err? <==>
      |source| > 0 && source[|source| - 1] == "Exercises" && forall k: nat :: k + 1 < |source| ==> !Header(source, k)
    ensures Fixed(source).Err? ==> Fixed(source).error == "IndexError"
    ensures Fixed(source).Ok? && Fixed(source).value.1.None? ==>
      Fixed(source).value.0 == source && forall k: nat :: k + 1 < |source| ==> !Header(source, k)
    ensures Fixed(source).Ok? && Fixed(source).value.1.Some? ==>
      var (output, p) := (Fixed(source).value.0, Fixed(source).value.1.value);
      2 <= p <= |source| && Header(source, p - 2) && (forall k: nat :: k < p - 2 ==> !Header(source, k)) &&
      |output| > |source| && output[..p] == source[..p] && output[|output| - 1] == ""
  {
    FindHeaderError(source, 0);
    match FindHeader(source, 0)
    case Err(_) =>
    case Ok(None) =>
      FindHeaderNone(source, 0);
    case Ok(Some(h)) =>
      FindHeaderFound(source, 0);
      ExercisesLength(source, h + 2);
      var output := Fixed(source).value.0;
      assert output == source[..h + 2] + (Exercises(source, h + 2) + [""]);
  }

  class FixExercises {
    const input: seq<string>
    var output: seq<string>
    var index: nat
    var hasExercises: Option<nat>
    var inputLength: nat
    var outputLength: nat
    /** The exception the constructor raised, if any. */
    var raised: Option<string>

    /** The cursor never passes the end of the input. */
    ghost predicate Valid()
      reads this
    {
      index <= |input|
    }

    /** `current_line()` */
    function CurrentLine(): (l: string)
      reads this
      ensures index < |input| ==> l == input[index]
      ensures index >= |input| ==> l == ""
    {
      LineAt(input, index)
    }

    /** `append_line()`: copies the current line and advances, unless at the end. */
    method AppendLine()
      requires Valid()
      modifies this`output, this`index
      ensures Valid()
      ensures old(index) < |input| ==> output == old(output) + [input[old(index)]] && index == old(index) + 1
      ensures old(index) >= |input| ==> output == old(output) && index == old(index)
    {
      if index < |input| {
        output := output + [input[index]];
        index := index + 1;
      }
    }

    /** `find_exercises()`: copy up to and including the heading's underline. */
    method FindExercises() returns (r: Result<Option<nat>, string>)
      requires Valid()
      modifies this`output, this`index
      ensures Valid()
      ensures match FindHeader(input, old(index))
        case Err(e) => r == Err(e)
        case Ok(None) => r == Ok(None) && index == |input| && output == old(output) + input[old(index)..]
        case Ok(Some(h)) => r == Ok(Some(h + 2)) && index == h + 2 && output == old(output) + input[old(index)..h + 2]
    {
      ghost var start := index;
      while index < |input|
        invariant start <= index <= |input|
        invariant FindHeader(input, index) == FindHeader(input, start)
        invariant output == old(output) + input[start..index]
        decreases |input| - index
      {
        if input[index] == "Exercises" {
          if index + 1 >= |input| {
            return Err("IndexError");
          }
          if StartsWith(input[index + 1], "---------") {
            AppendLine();
            AppendLine();
            assert input[start..index] == input[start..index - 2] + [input[index - 2], input[index - 1]];
            return Ok(Some(index));
          }
        }
        AppendLine();
        assert input[start..index] == input[start..index - 1] + [input[index - 1]];
      }
      return Ok(None);
    }

    /** `fix_remainder()`: the listing body, up to the next empty line, then the closing fence. */
    method FixRemainder() returns (more: bool)
      requires Valid()
      modifies this`output, this`index
      ensures Valid()
      ensures output == old(output) + Walk(input, old(index), InListing).0
      ensures index == Walk(input, old(index), InListing).1
      ensures more <==> index < |input|
    {
      ghost var start := index;
      while CurrentLine() != "" && index < |input|
        invariant start <= index <= |input|
        invariant output + Walk(input, index, InListing).0 == old(output) + Walk(input, start, InListing).0
        invariant Walk(input, index, InListing).1 == Walk(input, start, InListing).1
        decreases |input| - index
      {
        ghost var out0 := output;
        if EndsInBackslash(CurrentLine()) {
          output := output + [CurrentLine()[..|CurrentLine()| - 1]];
          if index < |input| {
            index := index + 1;
          }
        } else {
          AppendLine();
        }
        assert output == out0 + [Unslash(input[index - 1])];
        assert Walk(input, index - 1, InListing).0 == [Unslash(input[index - 1])] + Walk(input, index, InListing).0;
      }
      output := output + [CloseFence];
      more := index < |input|;
    }

    /** `fix_backslashes()`: the first backslash line opens the listing. */
    method FixBackslashes() returns (more: bool)
      requires Valid() && index < |input| && EndsInBackslash(input[index])
      modifies this`output, this`index
      ensures Valid()
      ensures output == old(output) + Opening(input[old(index)]) + Walk(input, old(index) + 1, InListing).0
      ensures index == Walk(input, old(index) + 1, InListing).1
      ensures more <==> index < |input|
    {
      output := output + [CurrentLine()[..|CurrentLine()| - 1]];
      output := output + [ScalaFence];
      index := index + 1;
      more := FixRemainder();
    }

    /** The first loop of `fix_one_exercise()`: copy lines up to the next exercise start. */
    method CopyToExercise()
      requires Valid()
      modifies this`output, this`index
      ensures Valid()
      ensures index == SkipTo(input, old(index))
      ensures output == old(output) + input[old(index)..index]
    {
      ghost var start := index;
      while !ExerciseStart(CurrentLine()) && index < |input|
        invariant start <= index <= |input|
        invariant SkipTo(input, index) == SkipTo(input, start)
        invariant output == old(output) + input[start..index]
        decreases |input| - index
      {
        AppendLine();
        assert input[start..index] == input[start..index - 1] + [input[index - 1]];
      }
    }

    /**
     * The second loop of `fix_one_exercise()` and its result: copy the
     * exercise up to an empty line, or hand its first backslash line to
     * `fix_backslashes()`.
     */
    method FixExerciseBody() returns (more: bool)
      requires Valid()
      modifies this`output, this`index
      ensures Valid()
      ensures output == old(output) + Walk(input, old(index), InBody).0
      ensures index == Walk(input, old(index), InBody).1
      ensures more <==> index < |input|
    {
      ghost var start := index;
      while CurrentLine() != ""
        invariant start <= index <= |input|
        invariant output + Walk(input, index, InBody).0 == old(output) + Walk(input, start, InBody).0
        invariant Walk(input, index, InBody).1 == Walk(input, start, InBody).1
        decreases |input| - index
      {
        if EndsInBackslash(CurrentLine()) {
          more := FixBackslashes();
          return;
        }
        AppendLine();
        assert Walk(input, index - 1, InBody).0 == [input[index - 1]] + Walk(input, index, InBody).0;
      }
      more := index < |input|;
    }

    /** `fix_one_exercise()`: copy to the next exercise and fix its first listing. */
    method FixOneExercise() returns (more: bool)
      requires Valid()
      modifies this`output, this`index
      ensures Valid()
      ensures output == old(output) + Walk(input, old(index), Skipping).0
      ensures index == Walk(input, old(index), Skipping).1
      ensures more <==> index < |input|
    {
      ghost var start, out0 := index, output;
      CopyToExercise();
      ghost var j := index;
      more := FixExerciseBody();
      SkipShape(input, start);
      Assoc(out0, input[start..j], Walk(input, j, InBody).0);
    }

    /** The constructor's `while self.fix_one_exercise(): pass`, run to the end of the input. */
    method FixAllExercises()
      requires Valid()
      modifies this`output, this`index
      ensures Valid() && index == |input|
      ensures output == old(output) + Exercises(input, old(index))
    {
      ghost var start := index;
      var more := FixOneExercise();
      while more
        invariant Valid()
        invariant more <==> index < |input|
        invariant more ==> output + Exercises(input, index) == old(output) + Exercises(input, start)
        invariant !more ==> output == old(output) + Exercises(input, start)
        decreases |input| - index
      {
        ghost var before, out0 := index, output;
        more := FixOneExercise();
        assert more ==> Exercises(input, before) == Walk(input, before, Skipping).0 + Exercises(input, index);
      }
    }

    /** `FixExercises(source)`: find the heading, fix every exercise after it, end with an empty line. */
    constructor (source: seq<string>)
      ensures Valid() && input == source
      ensures Fixed(source).Err? ==> raised == Some(Fixed(source).error)
      ensures Fixed(source).Ok? ==>
        (raised.None? && index == |input| && (output, hasExercises) == Fixed(source).value &&
         inputLength == |input| && outputLength == |output|)
    {
      this.input := source;
      output := [];
      index := 0;
      hasExercises := None;
      inputLength := 0;
      outputLength := 0;
      raised := None;
      new;
      var found := FindExercises();
      if found.Err? {
        raised := Some(found.error);
        return;
      }
      hasExercises := found.value;
      if hasExercises.Some? {
        assert output == source[..index];
        FixAllExercises();
        output := output + [""];
      } else {
        assert output == source;
      }
      inputLength := |input|;
      outputLength := |output|;
    }
  }
}
