/**
 * `book_builder/solution_extractor.py`: the exercises and solutions of an
 * atom.  The text after the atom's exercise heading is read line by line
 * from a queue; a line holding the exercise marker or the solution marker
 * opens an entry, whose number follows the marker and whose text is every
 * following line up to the next marked line, fences left out.
 */
module SolutionExtractor {

  import opened Results
  import opened Text
  import opened Chapters

  const ExerciseStart := "##### Exercise "
  const SolutionStart := "> Solution "
  const Fence := "```"

  /** A line that ends an entry's text: it holds either marker. */
  predicate Marked(line: string) {
    Contains(line, SolutionStart) || Contains(line, ExerciseStart)
  }

  // ---------------------------------------------------------------------------
  // extract
  // ---------------------------------------------------------------------------

  /** How many unmarked lines open `lines`. */
  function Run(lines: seq<string>): (k: nat)
    ensures k <= |lines|
  {
    if lines == [] || Marked(lines[0]) then 0 else 1 + Run(lines[1..])
  }

  /** The run ends at the first marked line, or at the end. */
  lemma {:induction false} RunFirst(lines: seq<string>)
    ensures var k := Run(lines);
      (forall i :: 0 <= i < k ==> !Marked(lines[i])) && (k == |lines| || Marked(lines[k]))
  {
    if lines != [] && !Marked(lines[0]) {
      RunFirst(lines[1..]);
    }
  }

  /** What one line of an entry adds to its text: nothing for a fence line, else the line and a break. */
  function Piece(line: string): string {
    if StartsWith(line, Fence) then "" else line + "\n"
  }

  /** The text accumulated from `body`, line after line. */
  function Gather(body: seq<string>): string {
    if body == [] then "" else Gather(body[..|body| - 1]) + Piece(body[|body| - 1])
  }

  /** The lines of `body` that are not fences. */
  function Kept(body: seq<string>): seq<string> {
    if body == [] then [] else (if StartsWith(body[0], Fence) then [] else [body[0]]) + Kept(body[1..])
  }

  lemma {:induction false} GatherCons(x: string, body: seq<string>)
    ensures Gather([x] + body) == Piece(x) + Gather(body)
    decreases |body|
  {
    if body == [] {
      assert [x] + body == [x];
    } else {
      var front, last := body[..|body| - 1], body[|body| - 1];
      ConsLast(x, body);
      GatherCons(x, front);
      Assoc(Piece(x), Gather(front), Piece(last));
    }
  }

  /** One more line adds its piece at the end. */
  lemma GatherAppend(body: seq<string>, x: string)
    ensures Gather(body + [x]) == Gather(body) + Piece(x)
  {
    SnocParts(body, x);
  }

  /** One more line of the slice adds its piece at the end. */
  lemma GatherSnoc(lines: seq<string>, a: nat, b: nat)
    requires a <= b < |lines|
    ensures Gather(lines[a..b + 1]) == Gather(lines[a..b]) + Piece(lines[b])
  {
    SliceLast(lines, a, b);
    GatherAppend(lines[a..b], lines[b]);
  }

  /** The accumulated text splits back into exactly the lines that are not fences. */
  lemma {:induction false} GatherLines(body: seq<string>)
    requires forall i :: 0 <= i < |body| ==> '\n' !in body[i]
    ensures SplitLines(Gather(body)) == Kept(body)
    decreases |body|
  {
    if body != [] {
      GatherCons(body[0], body[1..]);
      assert [body[0]] + body[1..] == body;
      GatherLines(body[1..]);
      var g := Gather(body[1..]);
      if !StartsWith(body[0], Fence) {
        assert Gather(body) == body[0] + "\n" + g;
        SplitLinesCons(body[0], g);
        assert Kept(body) == [body[0]] + Kept(body[1..]);
      } else {
        assert Gather(body) == g;
        assert Kept(body) == Kept(body[1..]);
      }
    }
  }

  /**
   * `extract(lines, start)` on a queue whose first line holds `start`: the
   * text between the first and the second `start` of that line, the
   * stripped text of the unmarked lines after it, and the lines left.
   */
  function Extracted(lines: seq<string>, start: string): (r: (string, string, seq<string>))
    requires lines != [] && |start| > 0 && Contains(lines[0], start)
    ensures |r.2| < |lines|
  {
    SplitSingle(lines[0], start);
    var k := 1 + Run(lines[1..]);
    (Split(lines[0], start)[1], Strip(Gather(lines[1..k])), lines[k..])
  }

  /**
   * `extract(lines, start)`: popping from an empty queue raises IndexError,
   * splitting by an empty separator raises ValueError, and a header that
   * does not hold `start` has no second part (IndexError).
   */
  function ExtractResult(lines: seq<string>, start: string): Result<(string, string, seq<string>), string> {
    if lines == [] then Err("IndexError")
    else if start == [] then Err("ValueError")
    else if !Contains(lines[0], start) then Err("IndexError")
    else Ok(Extracted(lines, start))
  }

  /** `extract(lines, start)`, with the queue's remaining lines returned. */
  method Extract(lines: seq<string>, start: string) returns (r: Result<(string, string, seq<string>), string>)
    ensures r == ExtractResult(lines, start)
  {
    if lines == [] {
      return Err("IndexError");
    }
    var header, rest := lines[0], lines[1..];
    if start == [] {
      return Err("ValueError");
    }
    var parts := Split(header, start);
    SplitSingle(header, start);
    if |parts| < 2 {
      return Err("IndexError");
    }
    var number := parts[1];
    var content := "";
    ghost var n := 0;
    while rest != [] && !Marked(rest[0])
      invariant n <= Run(lines[1..]) && rest == lines[1 + n..]
      invariant content == Gather(lines[1..1 + n])
      decreases |rest|
    {
      var line := rest[0];
      assert line == lines[1 + n];
      RunAt(lines[1..], n);
      rest := rest[1..];
      GatherSnoc(lines, 1, 1 + n);
      n := n + 1;
      if StartsWith(line, Fence) {
        continue;
      }
      Assoc(content, line, "\n");
      content := content + line + "\n";
    }
    RunAt(lines[1..], n);
    return Ok((number, Strip(content), rest));
  }

  /** Within the run, position `n` ends it exactly when it is the end or a marked line. */
  lemma {:induction false} RunAt(lines: seq<string>, n: nat)
    requires n <= Run(lines)
    ensures n == Run(lines) <==> n == |lines| || Marked(lines[n])
  {
    if n > 0 {
      RunAt(lines[1..], n - 1);
    }
  }

  /**
   * What `extract` consumes: the header and the unmarked lines after it,
   * stopping before the first marked line, which stays in the queue.
   * The text is that of the consumed lines without the fences, stripped.
   */
  lemma ExtractSpec(lines: seq<string>, start: string)
    ensures ExtractResult(lines, start).Err? <==> lines == [] || start == [] || !Contains(lines[0], start)
    ensures ExtractResult(lines, start).Ok? ==>
      var (number, content, rest) := ExtractResult(lines, start).value;
      number == Split(lines[0], start)[1] &&
      exists k :: 1 <= k <= |lines| && rest == lines[k..] &&
        (forall i :: 1 <= i < k ==> !Marked(lines[i])) && (rest == [] || Marked(rest[0])) &&
        content == Strip(Gather(lines[1..k]))
  {
    if ExtractResult(lines, start).Ok? {
      RunFirst(lines[1..]);
      var k := 1 + Run(lines[1..]);
      assert forall i :: 1 <= i < k ==> lines[i] == lines[1..][i - 1];
    }
  }

  // ---------------------------------------------------------------------------
  // ExercisesAndSolutions
  // ---------------------------------------------------------------------------

  /** One parsed entry: an exercise or a solution, its number and its text. */
  datatype Entry = Entry(exercise: bool, number: string, text: string)

  /** The entries the constructor's loop parses from `lines`, in order. */
  function Parse(lines: seq<string>): seq<Entry>
    decreases |lines|
  {
    if lines == [] then []
    else if Contains(lines[0], ExerciseStart) then
      var (number, text, rest) := Extracted(lines, ExerciseStart);
      [Entry(true, number, text)] + Parse(rest)
    else if Contains(lines[0], SolutionStart) then
      var (number, text, rest) := Extracted(lines, SolutionStart);
      [Entry(false, number, text)] + Parse(rest)
    else Parse(lines[1..])
  }

  /** The entries of one kind, assigned in order into a dictionary. */
  function Table(es: seq<Entry>, exercise: bool): OrderedMap<string> {
    if es == [] then []
    else
      var e := es[|es| - 1];
      var t := Table(es[..|es| - 1], exercise);
      if e.exercise == exercise then Put(t, e.number, e.text) else t
  }

  /** The text after the first exercise heading, up to a second one if there is one. */
  function ExercisesText(atom: string, header: string): string
    requires |header| > 0 && header in SplitLines(atom)
  {
    SplitLinesContained(atom, header);
    SplitSingle(atom, header);
    Split(atom, header)[1]
  }

  class ExercisesAndSolutions {
    const atom: string
    /** Whether the exercise heading is one of the atom's lines. */
    const containsExercises: bool
    var exerciseDescriptions: OrderedMap<string>
    var exerciseSolutions: OrderedMap<string>

    /**
     * `ExercisesAndSolutions(md)`, given the atom's text and the exercise
     * heading.  Without the heading nothing is parsed; otherwise the text
     * after it is read line by line, each marked line starting an entry
     * and every other line dropped.
     */
    constructor (atom: string, header: string)
      requires |header| > 0
      ensures this.atom == atom
      ensures containsExercises <==> header in SplitLines(atom)
      ensures !containsExercises ==> exerciseDescriptions == [] && exerciseSolutions == []
      ensures containsExercises ==>
        var es := Parse(SplitLines(ExercisesText(atom, header)));
        exerciseDescriptions == Table(es, true) && exerciseSolutions == Table(es, false)
    {
      this.atom := atom;
      var atomLines := SplitLines(atom);
      containsExercises := header in atomLines;
      if header !in atomLines {
        exerciseDescriptions, exerciseSolutions := [], [];
      } else {
        var exercises := ExercisesText(atom, header);
        var lines := SplitLines(exercises);
        var descriptions, solutions := [], [];
        ghost var all, done := Parse(lines), [];
        while lines != []
          invariant all == done + Parse(lines)
          invariant descriptions == Table(done, true) && solutions == Table(done, false)
          decreases |lines|
        {
          if Contains(lines[0], ExerciseStart) {
            var r := Extract(lines, ExerciseStart);
            ParseExtract(lines, true);
            var e := Entry(true, r.value.0, r.value.1);
            descriptions := Put(descriptions, e.number, e.text);
            TableStep(done, e);
            Assoc(done, [e], Parse(r.value.2));
            done, lines := done + [e], r.value.2;
          } else if Contains(lines[0], SolutionStart) {
            var r := Extract(lines, SolutionStart);
            ParseExtract(lines, false);
            var e := Entry(false, r.value.0, r.value.1);
            solutions := Put(solutions, e.number, e.text);
            TableStep(done, e);
            Assoc(done, [e], Parse(r.value.2));
            done, lines := done + [e], r.value.2;
          } else {
            lines := lines[1..];
          }
        }
        assert done + [] == done;
        exerciseDescriptions, exerciseSolutions := descriptions, solutions;
      }
    }
  }

  /** A line holding a marker opens one entry and parsing goes on after its text. */
  lemma ParseExtract(lines: seq<string>, exercise: bool)
    requires lines != []
    requires exercise ==> Contains(lines[0], ExerciseStart)
    requires !exercise ==> !Contains(lines[0], ExerciseStart) && Contains(lines[0], SolutionStart)
    ensures var start := if exercise then ExerciseStart else SolutionStart;
      var (number, text, rest) := Extracted(lines, start);
      Parse(lines) == [Entry(exercise, number, text)] + Parse(rest)
  {
  }

  lemma TableStep(es: seq<Entry>, e: Entry)
    ensures Table(es + [e], e.exercise) == Put(Table(es, e.exercise), e.number, e.text)
    ensures Table(es + [e], !e.exercise) == Table(es, !e.exercise)
  {
    assert (es + [e])[..|es|] == es;
  }

  /** Entry `j` is the last of its kind with its number: the dictionary reads its text, so a repeated number keeps the later text. */
  lemma {:induction false} TableLast(es: seq<Entry>, j: nat)
    requires j < |es|
    requires forall j' :: j < j' < |es| ==> es[j'].exercise != es[j].exercise || es[j'].number != es[j].number
    ensures Get(Table(es, es[j].exercise), es[j].number) == Some(es[j].text)
  {
    var e, front := es[|es| - 1], es[..|es| - 1];
    if j == |es| - 1 {
      PutGet(Table(front, e.exercise), e.number, e.text, e.number);
    } else {
      TableLast(front, j);
      if e.exercise == es[j].exercise {
        PutGet(Table(front, e.exercise), e.number, e.text, es[j].number);
      }
    }
  }

  /** A number with no entry of the kind is not a key of that dictionary. */
  lemma {:induction false} TableAbsent(es: seq<Entry>, exercise: bool, n: string)
    requires forall j :: 0 <= j < |es| ==> es[j].exercise != exercise || es[j].number != n
    ensures Get(Table(es, exercise), n) == None
  {
    if es != [] {
      var e, front := es[|es| - 1], es[..|es| - 1];
      TableAbsent(front, exercise, n);
      if e.exercise == exercise {
        PutGet(Table(front, exercise), e.number, e.text, n);
      }
    }
  }

  /** The kind and number a marked line opens an entry with: the exercise marker is checked first. */
  function Head(line: string): (bool, string)
    requires Marked(line)
  {
    var start := if Contains(line, ExerciseStart) then ExerciseStart else SolutionStart;
    SplitSingle(line, start);
    (start == ExerciseStart, Split(line, start)[1])
  }

  /** The kinds and numbers of the marked lines, in order. */
  function MarkedHeads(lines: seq<string>): seq<(bool, string)> {
    if lines == [] then []
    else (if Marked(lines[0]) then [Head(lines[0])] else []) + MarkedHeads(lines[1..])
  }

  /** The kinds and numbers of parsed entries, in order. */
  function EntryHeads(es: seq<Entry>): seq<(bool, string)> {
    if es == [] then [] else [(es[0].exercise, es[0].number)] + EntryHeads(es[1..])
  }

  lemma {:induction false} HeadsSkip(lines: seq<string>, n: nat)
    requires n <= |lines| && forall i :: 0 <= i < n ==> !Marked(lines[i])
    ensures MarkedHeads(lines) == MarkedHeads(lines[n..])
  {
    if n > 0 {
      HeadsSkip(lines[1..], n - 1);
      assert lines[1..][n - 1..] == lines[n..];
    }
  }

  /**
   * Every marked line opens exactly one entry and no other line opens one:
   * the parsed entries are the marked lines, in order, with their kinds and
   * numbers; unmarked lines are dropped or absorbed into a text.
   */
  lemma {:induction false} ParseHeads(lines: seq<string>)
    ensures EntryHeads(Parse(lines)) == MarkedHeads(lines)
    decreases |lines|
  {
    if lines != [] {
      if Marked(lines[0]) {
        var n := Run(lines[1..]);
        RunFirst(lines[1..]);
        HeadsSkip(lines[1..], n);
        assert lines[1..][n..] == lines[1 + n..];
        ParseHeads(lines[1 + n..]);
      } else {
        ParseHeads(lines[1..]);
      }
    }
  }

  // ---------------------------------------------------------------------------
  // write_exercise
  // ---------------------------------------------------------------------------

  const Width := 78

  /** What `write_exercise` writes: the centred heading, a blank line, the description, a blank line. */
  function WriteExercise(number: string, description: string): string {
    Center("Exercise " + number, Width, '-') + "\n\n" + description + "\n\n"
  }

  /**
   * A heading shorter than the width sits between two runs of dashes, the
   * left one the smaller half, filling the width exactly; then come two line
   * breaks, the description unchanged, and two line breaks.
   */
  lemma WriteExerciseLayout(number: string, description: string)
    requires |"Exercise " + number| < Width
    ensures var title := "Exercise " + number;
      var left := (Width - |title|) / 2;
      var r := WriteExercise(number, description);
      |r| == Width + |description| + 4 &&
      r[..Width] == Repeat('-', left) + title + Repeat('-', Width - |title| - left) &&
      r[Width..Width + 2] == "\n\n" && r[Width + 2..|r| - 2] == description && r[|r| - 2..] == "\n\n"
  {
    var title := "Exercise " + number;
    CenterEvenWidth(title, Width, '-');
    ConcatParts(Center(title, Width, '-'), "\n\n", description, "\n\n");
  }
}
