/**
 * `book_builder/util.py`: the error reporter the validators write into, the
 * Markdown filename of a chapter heading, chapter clean-up, removal of review
 * notes, and the helpers that put a regenerated code listing back into a
 * chapter and shorten long program output.
 */
module BookUtil {

  import opened Results
  import opened Text
  import opened Numerals
  import opened Slices
  import Filenames

  // ---------------------------------------------------------------------------
  // ErrorReporter
  // ---------------------------------------------------------------------------

  /** What a reporter holds after `messages`: the name line before the first one, each behind four spaces. */
  function Report(name: string, messages: seq<string>): string {
    if messages == [] then []
    else
      var before := messages[..|messages| - 1];
      (if before == [] then name + "\n" else Report(name, before)) + "    " + messages[|messages| - 1]
  }

  /** Each message behind four spaces, with nothing in between (the messages bring their own breaks). */
  function Indented(messages: seq<string>): string {
    if messages == [] then [] else "    " + messages[0] + Indented(messages[1..])
  }

  /** The report is the file name on a line of its own, then the indented messages; empty when there are none. */
  lemma {:induction false} ReportLayout(name: string, messages: seq<string>)
    ensures messages == [] ==> Report(name, messages) == []
    ensures messages != [] ==> Report(name, messages) == name + "\n" + Indented(messages)
  {
    if messages != [] {
      var before, m := messages[..|messages| - 1], messages[|messages| - 1];
      var head, indent := name + "\n", "    ";
      assert messages == before + [m];
      IndentedAppend(before, m);
      var i := Indented(before);
      assert Indented(messages) == i + indent + m;
      if before != [] {
        ReportLayout(name, before);
        assert Report(name, messages) == (head + i) + indent + m;
      } else {
        assert i == [];
        assert Report(name, messages) == head + indent + m;
      }
      assert (head + i) + indent + m == head + (i + indent + m);
    }
  }

  lemma {:induction false} IndentedAppend(messages: seq<string>, m: string)
    ensures Indented(messages + [m]) == Indented(messages) + "    " + m
  {
    if messages != [] {
      assert (messages + [m])[1..] == messages[1..] + [m];
      IndentedAppend(messages[1..], m);
    } else {
      assert [m][1..] == [];
    }
  }

  /** Collects the messages about one Markdown file. */
  class ErrorReporter {
    const mdPath: string
    const mdName: string
    var titled: bool
    var msg: string
    /** The messages received so far. */
    ghost var messages: seq<string>

    ghost predicate Valid()
      reads this
    {
      titled == (messages != []) && msg == Report(mdName, messages)
    }

    constructor (mdPath: string, mdName: string)
      ensures Valid() && this.mdPath == mdPath && this.mdName == mdName
      ensures messages == [] && msg == []
    {
      this.mdPath := mdPath;
      this.mdName := mdName;
      titled := false;
      msg := [];
      messages := [];
    }

    /** `reporter(m)`: the file name goes in before the first message only. */
    method Call(m: string)
      requires Valid()
      modifies this
      ensures Valid() && messages == old(messages) + [m]
    {
      if !titled {
        msg := msg + mdName + "\n";
        titled := true;
      }
      msg := msg + "    " + m;
      assert (messages + [m])[..|messages|] == messages;
      messages := messages + [m];
    }

    /** `show()`: the text printed, if any; only a reporter that received a message prints. */
    method Show() returns (printed: Option<string>)
      requires Valid()
      ensures printed.Some? <==> messages != []
      ensures printed.Some? ==> printed.value == msg
    {
      printed := if msg != [] then Some(msg) else None;
    }

    /** `edit()`: the file the editor is opened on, if any. */
    method Edit() returns (editing: Option<string>)
      requires Valid()
      ensures editing.Some? <==> messages != []
      ensures editing.Some? ==> editing.value == mdPath
    {
      editing := if msg != [] then Some(mdPath) else None;
    }
  }

  // ---------------------------------------------------------------------------
  // Markdown filenames
  // ---------------------------------------------------------------------------

  /** `create_markdown_filename(h1)`: see `Filenames.SafeName` for the character map. */
  function CreateMarkdownFilename(h1: string): (fn: string)
    ensures fn == Filenames.SafeName(h1) + ".md"
  {
    Filenames.MarkdownFilename(h1)
  }

  /** `create_numbered_markdown_filename(h1, n)`: `"%03d_" % n` in front of the filename. */
  function CreateNumberedMarkdownFilename(h1: string, n: nat): string {
    ZeroPad(n, 3) + "_" + CreateMarkdownFilename(h1)
  }

  /** The filename starts with at least three digits that read back as `n`, then `_` and the plain filename. */
  lemma {:induction false} NumberedFilenameParts(h1: string, n: nat)
    ensures var fn, k := CreateNumberedMarkdownFilename(h1, n), |ZeroPad(n, 3)|;
      3 <= k <= |fn| && AllDigits(fn[..k]) && Value(fn[..k]) == n && fn[k..] == "_" + CreateMarkdownFilename(h1)
  {
    PaddedParts(n, 3, CreateMarkdownFilename(h1));
  }

  /** Below 1000 the prefix is exactly three digits. */
  lemma {:induction false} NumberedFilenameWidth(h1: string, n: nat)
    requires n < 1000
    ensures var fn := CreateNumberedMarkdownFilename(h1, n);
      |fn| > 3 && AllDigits(fn[..3]) && Value(fn[..3]) == n && fn[3..] == "_" + CreateMarkdownFilename(h1)
  {
    assert Pow10(3) == 1000;
    ZeroPadWidth(n, 3);
    NumberedFilenameParts(h1, n);
  }

  // ---------------------------------------------------------------------------
  // strip_chapter
  // ---------------------------------------------------------------------------

  /** A line `rstrip` leaves alone. */
  predicate RightTrimmed(l: string) {
    l == [] || !IsSpace(l[|l| - 1])
  }

  function RStripAll(ls: seq<string>): (rs: seq<string>)
    ensures |rs| == |ls|
    ensures forall i :: 0 <= i < |ls| ==> rs[i] == RStrip(ls[i])
  {
    if ls == [] then [] else [RStrip(ls[0])] + RStripAll(ls[1..])
  }

  /** `strip_chapter(text)` */
  function StripChapter(chapterText: string): string {
    Strip(Join(RStripAll(SplitLines(Strip(chapterText))), "\n"))
  }

  /**
   * The cleaned chapter has no surrounding whitespace and no line of it ends in
   * whitespace; it is empty exactly when the chapter is blank.
   */
  lemma {:induction false} StripChapterClean(chapterText: string)
    ensures var r := StripChapter(chapterText);
      (r == [] <==> forall i :: 0 <= i < |chapterText| ==> IsSpace(chapterText[i])) &&
      (r == [] || (!IsSpace(r[0]) && !IsSpace(r[|r| - 1]))) &&
      forall i :: 0 <= i < |SplitLines(r)| ==> RightTrimmed(SplitLines(r)[i])
  {
    var t := Strip(chapterText);
    var joined := Join(RStripAll(SplitLines(t)), "\n");
    StripBlank(chapterText);
    StripEnds(chapterText);
    TrimmedLinesJoin(t);
    StripUnchanged(joined);
    assert StripChapter(chapterText) == joined;
    RStripAllRightTrimmed(SplitLines(t));
  }

  lemma {:induction false} RStripAllRightTrimmed(ls: seq<string>)
    ensures forall i :: 0 <= i < |ls| ==> RightTrimmed(RStripAll(ls)[i])
  {
    forall i | 0 <= i < |ls| ensures RightTrimmed(RStripAll(ls)[i]) {
      assert RStripAll(ls)[i] == RStrip(ls[i]);
      TrailingStartSpec(ls[i]);
    }
  }

  /** Joining the right-trimmed lines of a stripped text needs no further strip. */
  lemma {:induction false} TrimmedLinesJoin(t: string)
    requires t == [] || (!IsSpace(t[0]) && !IsSpace(t[|t| - 1]))
    ensures var j := Join(RStripAll(SplitLines(t)), "\n");
      (j == [] <==> t == []) &&
      (j == [] || (!IsSpace(j[0]) && !IsSpace(j[|j| - 1]))) &&
      SplitLines(j) == RStripAll(SplitLines(t))
  {
    var ls := SplitLines(t);
    var rs := RStripAll(ls);
    if t != [] {
      FirstLineStart(t);
      RStripKeepsFirst(ls[0]);
      assert rs[0] != [] && rs[0][0] == t[0];
      LastLineAfterBreaks(t);
      var last := Last(ls);
      assert last != [] && Last(last) == Last(t);
      RStripTrimmed(last);
      assert Last(rs) == last;
      JoinEnds(rs, "\n");
      var j := Join(rs, "\n");
      assert j != [] && !IsSpace(j[0]) && !IsSpace(j[|j| - 1]);
      SplitLinesNoBreaks(t);
      RStripNoBreaks(ls);
      SplitLinesJoin(rs);
      assert SplitLines(j) == rs;
    }
  }

  lemma {:induction false} RStripNoBreaks(ls: seq<string>)
    requires forall i :: 0 <= i < |ls| ==> '\n' !in ls[i]
    ensures forall i :: 0 <= i < |ls| ==> '\n' !in RStripAll(ls)[i]
  {
    var rs := RStripAll(ls);
    forall i | 0 <= i < |ls| ensures '\n' !in rs[i] {
      assert rs[i] == ls[i][..|rs[i]|];
    }
  }

  lemma {:induction false} RStripKeepsFirst(l: string)
    requires l != [] && !IsSpace(l[0])
    ensures RStrip(l) != [] && RStrip(l)[0] == l[0]
  {
    TrailingStartSpec(l);
  }

  lemma {:induction false} RStripTrimmed(l: string)
    requires RightTrimmed(l)
    ensures RStrip(l) == l
  {
  }

  /** The first line of a text that does not start with a break starts with its first character. */
  lemma {:induction false} FirstLineStart(s: string)
    requires s != [] && s[0] != '\n'
    ensures var ls := SplitLines(s); ls != [] && ls[0] != [] && ls[0][0] == s[0]
  {
    var i := IndexOfChar(s, '\n');
    assert i > 0;
  }

  /** The last line of a text that does not end with a break ends with its last character. */
  lemma {:induction false} LastLineAfterBreaks(s: string)
    requires s != [] && s[|s| - 1] != '\n'
    ensures SplitLines(s) != [] && EndsWithChar(Last(SplitLines(s)), Last(s))
    decreases |s|
  {
    var i := IndexOfChar(s, '\n');
    if i < |s| {
      var rest := s[i + 1..];
      SplitLinesStep(s, i);
      LastLineAfterBreaks(rest);
      assert Last(SplitLines(s)) == Last(SplitLines(rest));
      assert Last(rest) == Last(s);
    }
  }

  function Last<T>(s: seq<T>): T
    requires s != []
  {
    s[|s| - 1]
  }

  predicate EndsWithChar(l: string, c: char) {
    l != [] && Last(l) == c
  }

  /** The first and last characters of a join are those of its first and last parts. */
  lemma {:induction false} JoinEnds(ls: seq<string>, sep: string)
    requires ls != [] && ls[0] != [] && ls[|ls| - 1] != []
    ensures var j := Join(ls, sep); var l := ls[|ls| - 1];
      j != [] && j[0] == ls[0][0] && j[|j| - 1] == l[|l| - 1]
  {
    if |ls| > 1 {
      var tl := ls[1..];
      assert tl[|tl| - 1] == ls[|ls| - 1];
      if |tl| == 1 {
        assert Join(tl, sep) == tl[0];
      } else {
        JoinEndsLast(tl, sep);
      }
    }
  }

  lemma {:induction false} JoinEndsLast(ls: seq<string>, sep: string)
    requires ls != [] && ls[|ls| - 1] != []
    ensures var j := Join(ls, sep); var l := ls[|ls| - 1];
      j != [] && j[|j| - 1] == l[|l| - 1]
  {
    if |ls| > 1 {
      var tl := ls[1..];
      assert tl[|tl| - 1] == ls[|ls| - 1];
      JoinEndsLast(tl, sep);
    }
  }

  /** Cleaning a chapter twice is cleaning it once. */
  lemma {:induction false} StripChapterIdempotent(chapterText: string)
    ensures StripChapter(StripChapter(chapterText)) == StripChapter(chapterText)
  {
    var r := StripChapter(chapterText);
    StripChapterClean(chapterText);
    StripUnchanged(r);
    var ls := SplitLines(r);
    RStripAllTrimmed(ls);
    JoinSplitLines(r);
  }

  lemma {:induction false} RStripAllTrimmed(ls: seq<string>)
    requires forall i :: 0 <= i < |ls| ==> RightTrimmed(ls[i])
    ensures RStripAll(ls) == ls
  {
    forall i | 0 <= i < |ls| ensures RStripAll(ls)[i] == ls[i] {
      RStripTrimmed(ls[i]);
    }
  }

  // ---------------------------------------------------------------------------
  // strip_review_notes
  // ---------------------------------------------------------------------------

  const CheckboxPrefix := "+ ["
  const NotesPrefix := "+ Notes:"

  /** A review checkbox that names neither accepted status. */
  predicate Mistake(l: string) {
    StartsWith(l, CheckboxPrefix) && !Contains(l, "Ready for Review") && !Contains(l, "Tech Checked")
  }

  /** The checkbox lines that make `strip_review_notes` fail its assertion, in order. */
  function Mistakes(ls: seq<string>): (ms: seq<string>)
    ensures forall i :: 0 <= i < |ms| ==> Mistake(ms[i])
    ensures ms == [] <==> forall i :: 0 <= i < |ls| ==> !Mistake(ls[i])
    ensures forall x :: x in ms <==> x in ls && Mistake(x)
  {
    if ls == [] then []
    else (if Mistake(ls[0]) then [ls[0]] else []) + Mistakes(ls[1..])
  }

  /** The right-stripped lines that are not checkboxes, in order. */
  function DropCheckboxes(ls: seq<string>): (rs: seq<string>)
    ensures |rs| <= |ls|
    ensures forall i :: 0 <= i < |rs| ==> RightTrimmed(rs[i]) && !StartsWith(rs[i], CheckboxPrefix)
    ensures (forall i :: 0 <= i < |ls| ==> !StartsWith(ls[i], CheckboxPrefix)) ==> rs == RStripAll(ls)
  {
    if ls == [] then []
    else
      var l := ls[0];
      TrailingStartSpec(l);
      assert StartsWith(RStrip(l), CheckboxPrefix) ==> RStrip(l)[..3] == l[..3];
      (if StartsWith(l, CheckboxPrefix) then [] else [RStrip(l)]) + DropCheckboxes(ls[1..])
  }

  /** Line `i` lies in a notes block: a line at or before it opens one, and no empty line follows that opener up to `i`. */
  ghost predicate InNotes(ls: seq<string>, i: nat)
    requires i < |ls|
  {
    exists j :: 0 <= j <= i && StartsWith(ls[j], NotesPrefix) && forall k :: j <= k <= i ==> ls[k] != []
  }

  /** The first `n` lines that lie outside notes blocks, each followed by a break. */
  ghost function OutsideNotes(ls: seq<string>, n: nat): string
    requires n <= |ls|
  {
    if n == 0 then [] else OutsideNotes(ls, n - 1) + (if InNotes(ls, n - 1) then [] else ls[n - 1] + "\n")
  }

  /** The `in_notes` flag as the loop updates it. */
  lemma {:induction false} InNotesStep(ls: seq<string>, i: nat)
    requires i < |ls|
    ensures InNotes(ls, i) <==> ls[i] != [] && (StartsWith(ls[i], NotesPrefix) || (i > 0 && InNotes(ls, i - 1)))
  {
    if ls[i] != [] && StartsWith(ls[i], NotesPrefix) {
      assert forall k :: i <= k <= i ==> ls[k] != [];
    }
    if ls[i] != [] && i > 0 && InNotes(ls, i - 1) {
      var j :| 0 <= j <= i - 1 && StartsWith(ls[j], NotesPrefix) && forall k :: j <= k <= i - 1 ==> ls[k] != [];
      assert forall k :: j <= k <= i ==> ls[k] != [];
    }
    if InNotes(ls, i) && !StartsWith(ls[i], NotesPrefix) {
      var j :| 0 <= j <= i && StartsWith(ls[j], NotesPrefix) && forall k :: j <= k <= i ==> ls[k] != [];
      assert j < i;
      assert InNotes(ls, i - 1);
    }
  }

  /** The `in_notes` loop: the text of the lines outside notes blocks. */
  method DropNotes(lines: seq<string>) returns (result2: string)
    ensures result2 == OutsideNotes(lines, |lines|)
  {
    result2 := [];
    var inNotes := false;
    var i := 0;
    while i < |lines|
      invariant i <= |lines|
      invariant inNotes == (i > 0 && InNotes(lines, i - 1))
      invariant result2 == OutsideNotes(lines, i)
    {
      var line := lines[i];
      if StartsWith(line, NotesPrefix) {
        inNotes := true;
      }
      if inNotes && |line| == 0 {
        inNotes := false;
      }
      InNotesStep(lines, i);
      if !inNotes {
        result2 := result2 + line + "\n";
      }
      i := i + 1;
    }
  }

  /**
   * `re.sub("{{.*?}}", "", s, flags=re.DOTALL)`: from the left, each `{{` that
   * some later `}}` closes is removed through the first such `}}`.
   */
  function RemoveSpans(s: string): (r: string)
    ensures |r| <= |s|
    decreases |s|
  {
    if |s| < 2 then s
    else if s[..2] == "{{" then
      var q := Find(s[2..], "}}");
      if q < 0 then s else RemoveSpans(s[2 + q + 2..])
    else [s[0]] + RemoveSpans(s[1..])
  }

  /** Text with no closing `}}` is left alone (this covers text with no `{{`, too). */
  lemma {:induction false} RemoveSpansUnclosed(s: string)
    requires !Contains(s, "}}")
    ensures RemoveSpans(s) == s
    decreases |s|
  {
    if |s| >= 2 {
      var k := if s[..2] == "{{" then 2 else 1;
      assert s[..k] + s[k..] == s;
      if Contains(s[k..], "}}") {
        ContainsConcat(s[..k], s[k..], "}}");
        assert false;
      }
      if k == 1 {
        RemoveSpansUnclosed(s[1..]);
        assert s == [s[0]] + s[1..];
      }
    }
  }

  /** The first `}}` after a text without `}` is the one right after it. */
  lemma FindClose(m: string, b: string)
    requires '}' !in m
    ensures Find(m + "}}" + b, "}}") == |m|
  {
    var t := m + "}}" + b;
    assert OccursAt(t, "}}", |m|);
    ContainsAt(t, "}}", |m|);
    forall j | 0 <= j < |m| ensures !OccursAt(t, "}}", j) {
      assert t[j] == m[j];
    }
  }

  /** A span at the very front goes, and the rest is processed. */
  lemma RemoveSpansFront(m: string, b: string)
    requires '}' !in m
    ensures RemoveSpans("{{" + m + "}}" + b) == RemoveSpans(b)
  {
    var s := "{{" + m + "}}" + b;
    assert s[..2] == "{{";
    assert s[2..] == m + "}}" + b;
    FindClose(m, b);
    assert s[2 + |m| + 2..] == b;
  }

  /** One span: text without `{` before it is kept, the span goes, and the rest is processed. */
  lemma {:induction false} RemoveSpansOne(a: string, m: string, b: string)
    requires '{' !in a && '}' !in m
    ensures RemoveSpans(a + ("{{" + m + "}}" + b)) == a + RemoveSpans(b)
    decreases |a|
  {
    var r := "{{" + m + "}}" + b;
    if a == [] {
      assert a + r == r;
      RemoveSpansFront(m, b);
    } else {
      ConsTail(a, r);
      ConsTail(a, RemoveSpans(b));
      assert (a + r)[..2] != "{{" by {
        assert (a + r)[0] == a[0];
      }
      RemoveSpansOne(a[1..], m, b);
    }
  }


  /**
   * `strip_review_notes(target)` on the file's text: the assertion about
   * checkboxes, or the text that is written back.
   */
  method StripReviewNotes(target: string) returns (r: Result<string, seq<string>>)
    ensures var lines := SplitLines(Strip(target));
      (r.Err? <==> Mistakes(lines) != []) &&
      (r.Err? ==> r.error == Mistakes(lines)) &&
      (r.Ok? ==> r.value == RemoveSpans(OutsideNotes(DropCheckboxes(lines), |DropCheckboxes(lines)|)) + "\n")
  {
    var lines := SplitLines(Strip(target));
    var mistakes := Mistakes(lines);
    if mistakes != [] {
      return Err(mistakes);
    }
    var result := DropCheckboxes(lines);
    var result2 := DropNotes(result);
    var result3 := RemoveSpans(result2);
    return Ok(result3 + "\n");
  }

  // ---------------------------------------------------------------------------
  // find_end and replace_code_in_text
  // ---------------------------------------------------------------------------

  const Fence := "```"
  /** f"```{config.language_name}" with the configured language, Kotlin. */
  const LanguageFence := "```kotlin"

  /**
   * The line `find_end(lines, n)` answers: the first line from `n` on that is a
   * closing fence, unless an opening Kotlin fence or the end of the text comes first.
   */
  function ClosingFence(lines: seq<string>, n: nat): (r: Result<nat, string>)
    ensures r.Ok? ==> n <= r.value < |lines|
    decreases |lines| - n
  {
    if n >= |lines| then Err("closing ``` not found")
    else if RStrip(lines[n]) == Fence then Ok(n)
    else if RStrip(lines[n]) == LanguageFence then Err("```kotlin before closing ```")
    else ClosingFence(lines, n + 1)
  }

  /**
   * A closing fence is found exactly when one follows `n` with no opening
   * Kotlin fence before it, and the answer is the first such line.
   */
  lemma {:induction false} ClosingFenceFirst(lines: seq<string>, n: nat)
    ensures var r := ClosingFence(lines, n);
      (r.Ok? ==> (n <= r.value < |lines| && RStrip(lines[r.value]) == Fence &&
        forall k :: n <= k < r.value ==> RStrip(lines[k]) != Fence && RStrip(lines[k]) != LanguageFence)) &&
      (r.Err? <==> forall e :: n <= e < |lines| && RStrip(lines[e]) == Fence ==>
        exists k :: n <= k < e && RStrip(lines[k]) == LanguageFence)
    decreases |lines| - n
  {
    if n < |lines| && RStrip(lines[n]) != Fence && RStrip(lines[n]) != LanguageFence {
      ClosingFenceFirst(lines, n + 1);
    }
  }

  /** `find_end(text_lines, n)` */
  method FindEnd(textLines: seq<string>, n: nat) returns (r: Result<nat, string>)
    ensures r == ClosingFence(textLines, n)
  {
    var rest := if n <= |textLines| then textLines[n..] else [];
    var i := 0;
    while i < |rest|
      invariant i <= |rest|
      invariant ClosingFence(textLines, n + i) == ClosingFence(textLines, n)
    {
      if RStrip(rest[i]) == Fence {
        return Ok(n + i);
      }
      if RStrip(rest[i]) == LanguageFence {
        return Err("```kotlin before closing ```");
      }
      i := i + 1;
    }
    return Err("closing ``` not found");
  }

  /** The title of a generated listing: its first line, stripped. */
  function Title(generated: string): string
    requires generated != []
  {
    Strip(SplitLines(generated)[0])
  }

  /** Every line, stripped. */
  function StripAll(ls: seq<string>): (rs: seq<string>)
    ensures |rs| == |ls|
    ensures forall i :: 0 <= i < |ls| ==> rs[i] == Strip(ls[i])
  {
    if ls == [] then [] else [Strip(ls[0])] + StripAll(ls[1..])
  }

  /** The first index from `n` on whose stripped line is `title`. */
  function TitleLine(stripped: seq<string>, title: string, n: nat): Option<nat>
    decreases |stripped| - n
  {
    if n >= |stripped| then None
    else if stripped[n] == title then Some(n)
    else TitleLine(stripped, title, n + 1)
  }

  /** `TitleLine` finds the first title line from `n` on, and finds none only when there is none. */
  lemma {:induction false} TitleLineFirst(stripped: seq<string>, title: string, n: nat)
    ensures var r := TitleLine(stripped, title, n);
      (r.Some? ==> (n <= r.value < |stripped| && stripped[r.value] == title &&
        forall k :: n <= k < r.value ==> stripped[k] != title)) &&
      (r.None? <==> forall k :: n <= k < |stripped| ==> stripped[k] != title)
    decreases |stripped| - n
  {
    if n < |stripped| && stripped[n] != title {
      TitleLineFirst(stripped, title, n + 1);
    }
  }

  /**
   * `replace_code_in_text(generated, text)`: the lines from the first one
   * that strips to the generated title up to (not including) the closing
   * fence become the generated lines; the joined text is stripped.  Returns
   * the new text and the index of the title line, or the error raised.
   */
  method ReplaceCodeInText(generated: string, text: string) returns (r: Result<(string, nat), string>)
    ensures generated == [] ==> r == Err("IndexError")
    ensures generated != [] ==>
      var lines := SplitLines(text);
      var first := TitleLine(StripAll(lines), Title(generated), 0);
      (r.Ok? <==> Contains(text, Title(generated)) && first.Some? && ClosingFence(lines, first.value).Ok?) &&
      (r.Ok? ==> (r.value.1 == first.value &&
        r.value.0 == Strip(Join(lines[..first.value] + SplitLines(generated) + lines[ClosingFence(lines, first.value).value..], "\n"))))
  {
    if generated == [] {
      return Err("IndexError");
    }
    var codeLines := SplitLines(generated);
    var title := Strip(codeLines[0]);
    if !Contains(text, title) {
      return Err(title + " not in text");
    }
    var textLines := SplitLines(text);
    ghost var stripped := StripAll(textLines);
    var n := 0;
    while n < |textLines|
      invariant n <= |textLines|
      invariant TitleLine(stripped, title, n) == TitleLine(stripped, title, 0)
    {
      if Strip(textLines[n]) == title {
        var end := FindEnd(textLines, n);
        if end.Err? {
          return Err(end.error);
        }
        ClosingFenceFirst(textLines, n);
        var newLines := textLines[..n] + codeLines + textLines[end.value..];
        return Ok((Strip(Join(newLines, "\n")), n));
      }
      n := n + 1;
    }
    return Err(title + " not found in text");
  }

  // ---------------------------------------------------------------------------
  // adjust_lines
  // ---------------------------------------------------------------------------

  const Dots := "..."
  const Rule := "________"
  /** `"...________...________...________...________..."` */
  const FirstAndLastMarker := Dots + Rule + Dots + Rule + Dots + Rule + Dots + Rule + Dots
  const FirstMarker := "                  ..."

  /** The lines `adjust_lines` keeps for a request of the first and last `k` lines. */
  function FirstAndLast(lines: seq<string>, k: int): seq<string> {
    Take(lines, k + 1) + [FirstAndLastMarker] + Drop(lines, -k)
  }

  /** The lines `adjust_lines` keeps for a request of the first `k` lines. */
  function FirstOnly(lines: seq<string>, k: int): seq<string> {
    Take(lines, k + 1) + [FirstMarker]
  }

  /**
   * `adjust_lines(text)`: NUL becomes "NUL"; a slugline asking for the first
   * and last N lines keeps `lines[:N+1]`, a marker and `lines[-N:]`; one asking
   * for the first N lines keeps `lines[:N+1]` and an ellipsis.  Errors are the
   * IndexError and ValueError the code raises.
   */
  function AdjustLines(text: string): Result<string, string> {
    var t := Replace(text, "\0", "NUL");
    var lines := SplitLines(t);
    if lines == [] then Err("IndexError")
    else
      var slug := lines[0];
      var words := Words(slug);
      if Contains(slug, "(First and Last ") then
        if |words| < 6 then Err("IndexError")
        else match ParseInt(words[5])
          case None => Err("ValueError")
          case Some(k) => Ok(Join(FirstAndLast(lines, k), "\n"))
      else if Contains(slug, "(First ") then
        if |words| < 4 then Err("IndexError")
        else match ParseInt(words[3])
          case None => Err("ValueError")
          case Some(k) => Ok(Join(FirstOnly(lines, k), "\n"))
      else Ok(t)
  }

  /** No line holds `c`. */
  predicate LinesWithout(ls: seq<string>, c: char) {
    forall i :: 0 <= i < |ls| ==> c !in ls[i]
  }

  /** Whatever `adjust_lines` returns holds no NUL character. */
  lemma {:induction false} AdjustLinesNoNul(text: string)
    ensures AdjustLines(text).Ok? ==> '\0' !in AdjustLines(text).value
  {
    var t := Replace(text, "\0", "NUL");
    ReplaceRemoves(text, '\0', "NUL");
    var lines := SplitLines(t);
    NoCharInLines(t, '\0');
    if lines != [] {
      MarkersWithoutNul();
      forall k: int ensures LinesWithout(FirstAndLast(lines, k), '\0') && LinesWithout(FirstOnly(lines, k), '\0') {
        SlicesWithout(lines, k, '\0');
      }
      forall k: int ensures '\0' !in Join(FirstAndLast(lines, k), "\n") && '\0' !in Join(FirstOnly(lines, k), "\n") {
        NoCharInJoin(FirstAndLast(lines, k), "\n", '\0');
        NoCharInJoin(FirstOnly(lines, k), "\n", '\0');
      }
    }
  }

  lemma MarkersWithoutNul()
    ensures '\0' !in FirstAndLastMarker && '\0' !in FirstMarker
  {
    assert '\0' !in Dots && '\0' !in Rule;
    assert forall i :: 0 <= i < |FirstMarker| ==> FirstMarker[i] in ". ";
  }

  lemma {:induction false} SlicesWithout(lines: seq<string>, k: int, c: char)
    requires LinesWithout(lines, c) && c !in FirstAndLastMarker && c !in FirstMarker
    ensures LinesWithout(FirstAndLast(lines, k), c) && LinesWithout(FirstOnly(lines, k), c)
  {
    var a, b := Take(lines, k + 1), Drop(lines, -k);
    assert LinesWithout(a, c) && LinesWithout(b, c);
    assert LinesWithout(a + [FirstAndLastMarker] + b, c);
  }

  lemma {:induction false} NoCharInLines(s: string, c: char)
    requires c !in s
    ensures LinesWithout(SplitLines(s), c)
    decreases |s|
  {
    if s != [] {
      var i := IndexOfChar(s, '\n');
      if i < |s| {
        NoCharInLines(s[i + 1..], c);
        assert forall x :: x in s[..i] ==> x in s;
      }
    }
  }

  lemma {:induction false} NoCharInJoin(ls: seq<string>, sep: string, c: char)
    requires c !in sep && LinesWithout(ls, c)
    ensures c !in Join(ls, sep)
  {
    if |ls| > 1 {
      assert LinesWithout(ls[1..], c);
      NoCharInJoin(ls[1..], sep, c);
    }
  }

  /** A slugline that does not ask for an excerpt leaves the text as it is, NUL aside. */
  lemma {:induction false} AdjustLinesUnmarked(text: string)
    requires var lines := SplitLines(Replace(text, "\0", "NUL"));
      lines != [] && !Contains(lines[0], "(First ")
    ensures AdjustLines(text) == Ok(Replace(text, "\0", "NUL"))
  {
    var slug := SplitLines(Replace(text, "\0", "NUL"))[0];
    if Contains(slug, "(First and Last ") {
      ContainsPrefix(slug, "(First and Last ", "(First ");
    }
  }

  /** With `1 <= N` and enough lines: the first N+1 lines, the marker, the last N lines. */
  lemma {:induction false} AdjustLinesFirstAndLast(text: string, n: nat)
    requires var lines := SplitLines(Replace(text, "\0", "NUL"));
      lines != [] && Contains(lines[0], "(First and Last ") &&
      |Words(lines[0])| >= 6 && ParseInt(Words(lines[0])[5]) == Some(n as int) &&
      1 <= n && n + 1 <= |lines|
    ensures var lines := SplitLines(Replace(text, "\0", "NUL"));
      AdjustLines(text) == Ok(Join(lines[..n + 1] + [FirstAndLastMarker] + lines[|lines| - n..], "\n"))
  {
    var lines := SplitLines(Replace(text, "\0", "NUL"));
    assert AdjustLines(text) == Ok(Join(FirstAndLast(lines, n), "\n"));
    assert Bound(n + 1, |lines|) == n + 1 && Bound(-(n as int), |lines|) == |lines| - n;
  }

  /** `lines[-0:]` is the whole list: a request for the first and last 0 lines repeats everything after the slug and marker. */
  lemma {:induction false} AdjustLinesFirstAndLastZero(text: string)
    requires var lines := SplitLines(Replace(text, "\0", "NUL"));
      lines != [] && Contains(lines[0], "(First and Last ") &&
      |Words(lines[0])| >= 6 && ParseInt(Words(lines[0])[5]) == Some(0)
    ensures var lines := SplitLines(Replace(text, "\0", "NUL"));
      AdjustLines(text) == Ok(Join([lines[0], FirstAndLastMarker] + lines, "\n"))
  {
    FirstAndLastZero(SplitLines(Replace(text, "\0", "NUL")));
  }

  lemma FirstAndLastZero(lines: seq<string>)
    requires lines != []
    ensures FirstAndLast(lines, 0) == [lines[0], FirstAndLastMarker] + lines
  {
    assert Take(lines, 1) == [lines[0]];
    assert Drop(lines, 0) == lines;
  }

  /** With N below the line count: the first N+1 lines and the ellipsis line. */
  lemma {:induction false} AdjustLinesFirst(text: string, n: nat)
    requires var lines := SplitLines(Replace(text, "\0", "NUL"));
      lines != [] && !Contains(lines[0], "(First and Last ") && Contains(lines[0], "(First ") &&
      |Words(lines[0])| >= 4 && ParseInt(Words(lines[0])[3]) == Some(n as int) &&
      n + 1 <= |lines|
    ensures var lines := SplitLines(Replace(text, "\0", "NUL"));
      AdjustLines(text) == Ok(Join(lines[..n + 1] + [FirstMarker], "\n"))
  {
    var lines := SplitLines(Replace(text, "\0", "NUL"));
    assert FirstOnly(lines, n) == lines[..n + 1] + [FirstMarker];
  }
}
