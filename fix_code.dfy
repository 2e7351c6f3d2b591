/**
 * `zzz_imported_tools/Residual/FixCode.py`: turning the numbered Scala
 * listings of a converted book into fenced Markdown listings, the table of
 * stray characters that `fix_text` replaces, and the tag markers.
 */
module FixCodeModel {

  import opened Results
  import opened Text
  import opened Slices

  // ---------------------------------------------------------------------------
  // start_marker / end_marker
  // ---------------------------------------------------------------------------

  /** `start_marker(tag)` */
  function StartMarker(tag: string): (m: string)
    ensures |m| == |tag| + 4
  {
    "[$" + tag + "$]"
  }

  /** `end_marker(tag)` */
  function EndMarker(tag: string): (m: string)
    ensures |m| == |tag| + 8
  {
    "[$end_" + tag + "$]"
  }

  /**
   * The markers bracket the tag and determine it; a tag's end marker is the
   * start marker of the tag prefixed with `end_`, and never its own start
   * marker.
   */
  lemma MarkerLayout(a: string, b: string)
    ensures StartMarker(a)[..2] == "[$" && StartMarker(a)[2..|a| + 2] == a && StartMarker(a)[|a| + 2..] == "$]"
    ensures StartMarker(a) == StartMarker(b) ==> a == b
    ensures EndMarker(a) == EndMarker(b) ==> a == b
    ensures EndMarker(a) == StartMarker("end_" + a)
    ensures StartMarker(a) != EndMarker(a)
  {
    if StartMarker(a) == StartMarker(b) {
      assert a == StartMarker(a)[2..|a| + 2];
    }
    if EndMarker(a) == EndMarker(b) {
      assert a == EndMarker(a)[6..|a| + 6];
      assert b == EndMarker(b)[6..|b| + 6];
    }
  }

  // ---------------------------------------------------------------------------
  // chars / fix_text
  // ---------------------------------------------------------------------------

  /**
   * The `chars` table: UTF-8 byte pairs read as two characters each (the
   * mojibake of a mis-decoded file), with their plain replacements, in the
   * table's order.
   */
  const Chars: seq<(string, string)> := [
    ("\U{00C2}\U{0082}", ","),
    ("\U{00C2}\U{0084}", ",,"),
    ("\U{00C2}\U{0085}", "..."),
    ("\U{00C2}\U{0088}", "^"),
    ("\U{00C2}\U{0091}", "'"),
    ("\U{00C2}\U{0092}", "'"),
    ("\U{00C2}\U{0093}", "\""),
    ("\U{00C2}\U{0094}", "\""),
    ("\U{00C2}\U{0095}", " "),
    ("\U{00C2}\U{0096}", "-"),
    ("\U{00C2}\U{0097}", "--"),
    ("\U{00C2}\U{0099}", " "),
    ("\U{00C2}\U{00A0}", " "),
    ("\U{00C2}\U{00A6}", "|"),
    ("\U{00C2}\U{00AB}", "<<"),
    ("\U{00C2}\U{00BB}", ">>"),
    ("\U{00C2}\U{00BC}", "1/4"),
    ("\U{00C2}\U{00BD}", "1/2"),
    ("\U{00C2}\U{00BE}", "3/4"),
    ("\U{00CA}\U{00BF}", "'"),
    ("\U{00CC}\U{00A8}", ""),
    ("\U{00CC}\U{00B1}", "")
  ]

  /** The first entry whose key opens `s`: the alternative the regex tries first. */
  function KeyAt(s: string, table: seq<(string, string)>): (r: Option<nat>)
    ensures r.Some? ==> r.value < |table| && StartsWith(s, table[r.value].0)
    ensures r.None? <==> forall k :: 0 <= k < |table| ==> !StartsWith(s, table[k].0)
  {
    if table == [] then None
    else if StartsWith(s, table[0].0) then Some(0)
    else
      match KeyAt(s, table[1..])
      case None => None
      case Some(k) => Some(k + 1)
  }

  /**
   * `re.sub('(' + '|'.join(keys) + ')', replace_chars, text)`: scanning left
   * to right, a key that opens the rest of the text is replaced by its value
   * and skipped; otherwise one character is copied.
   */
  function Substitute(text: string, table: seq<(string, string)>): string
    requires forall k :: 0 <= k < |table| ==> table[k].0 != []
    decreases |text|
  {
    if text == [] then []
    else
      match KeyAt(text, table)
      case Some(k) => table[k].1 + Substitute(text[|table[k].0|..], table)
      case None => [text[0]] + Substitute(text[1..], table)
  }

  /** `fix_text(text)` */
  function FixText(text: string): string {
    Substitute(text, Chars)
  }

  /** Text in which no key occurs comes back unchanged. */
  lemma {:induction false} SubstituteUntouched(text: string, table: seq<(string, string)>)
    requires forall k :: 0 <= k < |table| ==> table[k].0 != []
    requires forall k :: 0 <= k < |table| ==> !Contains(text, table[k].0)
    ensures Substitute(text, table) == text
    decreases |text|
  {
    if text != [] {
      forall k | 0 <= k < |table| ensures !StartsWith(text, table[k].0) {
        if StartsWith(text, table[k].0) {
          StartsWithContains(text, table[k].0);
        }
      }
      assert text == [text[0]] + text[1..];
      forall k | 0 <= k < |table| ensures !Contains(text[1..], table[k].0) {
        if Contains(text[1..], table[k].0) {
          ContainsConcat([text[0]], text[1..], table[k].0);
        }
      }
      SubstituteUntouched(text[1..], table);
    }
  }

  /** A key at the front is replaced by its value, and the scan goes on after it. */
  lemma SubstituteKey(text: string, table: seq<(string, string)>, k: nat)
    requires forall i :: 0 <= i < |table| ==> table[i].0 != []
    requires k < |table| && StartsWith(text, table[k].0)
    requires forall i :: 0 <= i < k ==> !StartsWith(text, table[i].0)
    ensures Substitute(text, table) == table[k].1 + Substitute(text[|table[k].0|..], table)
  {
    KeyAtFirst(text, table, k);
  }

  lemma {:induction false} KeyAtFirst(s: string, table: seq<(string, string)>, k: nat)
    requires k < |table| && StartsWith(s, table[k].0)
    requires forall i :: 0 <= i < k ==> !StartsWith(s, table[i].0)
    ensures KeyAt(s, table) == Some(k)
  {
    if k > 0 {
      assert !StartsWith(s, table[0].0);
      KeyAtFirst(s, table[1..], k - 1);
    }
  }

  /** Every key of the table is two characters long and no two are equal. */
  lemma CharsKeys()
    ensures forall k :: 0 <= k < |Chars| ==> |Chars[k].0| == 2
    ensures forall i, j :: 0 <= i < j < |Chars| ==> Chars[i].0 != Chars[j].0
  {
  }

  /**
   * `fix_text` maps each key to its value and copies everything else:
   * on a text without keys it is the identity, and a key in front is
   * replaced, whatever follows it.
   */
  lemma FixTextSpec(text: string, k: nat)
    requires k < |Chars|
    ensures (forall i :: 0 <= i < |Chars| ==> !Contains(text, Chars[i].0)) ==> FixText(text) == text
    ensures FixText(Chars[k].0 + text) == Chars[k].1 + FixText(text)
  {
    if forall i :: 0 <= i < |Chars| ==> !Contains(text, Chars[i].0) {
      SubstituteUntouched(text, Chars);
    }
    CharsKeys();
    var s := Chars[k].0 + text;
    assert StartsWith(s, Chars[k].0);
    forall i | 0 <= i < k ensures !StartsWith(s, Chars[i].0) {
      assert s[..2] == Chars[k].0;
    }
    SubstituteKey(s, Chars, k);
    assert s[2..] == text;
  }

  // ---------------------------------------------------------------------------
  // fixline
  // ---------------------------------------------------------------------------

  /** What `fixline(line)` returns, or the IndexError of a line made only of spaces. */
  function FixLineResult(line: string): Result<string, string> {
    if line == [] then Ok(line)
    else if LeadingSpaces(line) == |line| then Err("IndexError")
    else if LeadingSpaces(line) % 2 == 0 then Ok(line)
    else Ok(line[1..])
  }

  /** `fixline(line)`: count the leading spaces, and drop one if the count is odd. */
  method FixLine(line: string) returns (r: Result<string, string>)
    ensures r == FixLineResult(line)
  {
    if line == [] {
      return Ok(line);
    }
    var startSpaces := 0;
    while startSpaces < |line| && line[startSpaces] == ' '
      invariant startSpaces <= |line|
      invariant forall k :: 0 <= k < startSpaces ==> line[k] == ' '
    {
      startSpaces := startSpaces + 1;
    }
    LeadingSpacesIs(line, startSpaces);
    if startSpaces == |line| {
      return Err("IndexError");
    }
    if startSpaces == 0 || startSpaces % 2 == 0 {
      return Ok(line);
    }
    return Ok(line[1..]);
  }

  lemma {:induction false} LeadingSpacesIs(s: string, n: nat)
    requires n <= |s| && (forall k :: 0 <= k < n ==> s[k] == ' ') && (n == |s| || s[n] != ' ')
    ensures LeadingSpaces(s) == n
  {
    if n > 0 {
      LeadingSpacesIs(s[1..], n - 1);
    }
  }

  /** `fixline` raises, with IndexError, exactly on a non-empty line made only of spaces. */
  lemma FixLineError(line: string)
    ensures FixLineResult(line).Err? <==> line != [] && forall k :: 0 <= k < |line| ==> line[k] == ' '
    ensures FixLineResult(line).Err? ==> FixLineResult(line).error == "IndexError"
  {
    LeadingSpacesRun(line);
    if line != [] && forall k :: 0 <= k < |line| ==> line[k] == ' ' {
      LeadingSpacesIs(line, |line|);
    }
  }

  /**
   * Otherwise its result has an even number of leading spaces, is the line
   * itself or the line without its first space, and keeps everything after
   * the spaces.
   */
  lemma FixLineEven(line: string)
    requires FixLineResult(line).Ok?
    ensures var r := FixLineResult(line).value;
      LeadingSpaces(r) % 2 == 0 &&
      (r == line || (line[0] == ' ' && r == line[1..])) &&
      r[LeadingSpaces(r)..] == line[LeadingSpaces(line)..]
  {
    LeadingSpacesRun(line);
    if line != [] && LeadingSpaces(line) % 2 == 1 {
      LeadingSpacesIs(line[1..], LeadingSpaces(line) - 1);
    }
  }

  // ---------------------------------------------------------------------------
  // FixCode
  // ---------------------------------------------------------------------------

  /** `re.match("\d+", line)` */
  predicate DigitLed(line: string) {
    |line| > 0 && IsDigit(line[0])
  }

  /** A result with `done` in front of its lines. */
  function After(done: seq<string>, r: Result<seq<string>, string>): Result<seq<string>, string> {
    match r
    case Err(e) => Err(e)
    case Ok(lines) => Ok(done + lines)
  }

  /** A `fixup` result with `done` in front of its lines. */
  function AfterFixup(done: seq<string>, r: Result<(seq<string>, nat), string>): Result<(seq<string>, nat), string> {
    match r
    case Err(e) => Err(e)
    case Ok(res) => Ok((done + res.0, res.1))
  }

  lemma AfterFixupOk(done: seq<string>, r: Result<(seq<string>, nat), string>, lines: seq<string>, at: nat)
    requires AfterFixup(done, r) == Ok((lines, at))
    ensures r.Ok? && lines == done + r.value.0 && at == r.value.1
  {
  }

  lemma AfterFixupErr(done: seq<string>, r: Result<(seq<string>, nat), string>, e: string)
    requires AfterFixup(done, r) == Err(e)
    ensures r == Err(e)
  {
  }

  /**
   * The lines `fixup`'s loop writes from line `i` on and the line it stops
   * on: numbered lines lose their three-character number column and go
   * through `fixline`, empty lines are dropped, and the first other line
   * closes the listing.  Running off the end raises IndexError.
   */
  function FixupWalk(input: seq<string>, i: nat): (r: Result<(seq<string>, nat), string>)
    ensures r.Ok? ==> i <= r.value.1 < |input|
    decreases |input| - i
  {
    if i >= |input| then Err("IndexError")
    else if DigitLed(input[i]) then
      match FixLineResult(Drop(input[i], 3))
      case Err(e) => Err(e)
      case Ok(l) => AfterFixup([l], FixupWalk(input, i + 1))
    else if input[i] == "" then FixupWalk(input, i + 1)
    else Ok((["```", "", input[i]], i))
  }

  /**
   * The lines the constructor's loop writes from line `i` on: a "```scala"
   * line followed by a line starting "1   //" opens a numbered listing that
   * `fixup` rewrites; every other line is copied.  A "```scala" last line
   * raises IndexError when its successor is read.
   */
  function CodeWalk(input: seq<string>, i: nat): Result<seq<string>, string>
    decreases |input| - i
  {
    if i >= |input| then Ok([])
    else if StartsWith(input[i], "```scala") && i + 1 >= |input| then Err("IndexError")
    else if StartsWith(input[i], "```scala") && StartsWith(input[i + 1], "1   //") then
      match FixupWalk(input, i + 1)
      case Err(e) => Err(e)
      case Ok(res) => After([input[i]] + res.0, CodeWalk(input, res.1 + 1))
    else After([input[i]], CodeWalk(input, i + 1))
  }

  /** Line `i` opens a numbered listing. */
  predicate Opens(input: seq<string>, i: nat)
    requires i + 1 < |input|
  {
    StartsWith(input[i], "```scala") && StartsWith(input[i + 1], "1   //")
  }

  lemma AfterAssoc(a: seq<string>, b: seq<string>, r: Result<seq<string>, string>)
    ensures After(a, After(b, r)) == After(a + b, r)
  {
    if r.Ok? {
      assert a + (b + r.value) == (a + b) + r.value;
    }
  }

  /**
   * Without a numbered listing and without a "```scala" last line, every
   * line is copied verbatim.
   */
  lemma {:induction false} CodeWalkVerbatim(input: seq<string>, i: nat)
    requires i <= |input|
    requires forall k: nat :: i <= k && k + 1 < |input| ==> !Opens(input, k)
    requires i < |input| ==> !StartsWith(input[|input| - 1], "```scala")
    ensures CodeWalk(input, i) == Ok(input[i..])
    decreases |input| - i
  {
    if i < |input| {
      assert i + 1 < |input| ==> !Opens(input, i);
      CodeWalkVerbatim(input, i + 1);
      assert [input[i]] + input[i + 1..] == input[i..];
    }
  }

  /** Every failure is an IndexError. */
  lemma {:induction false} FixupWalkError(input: seq<string>, i: nat)
    requires FixupWalk(input, i).Err?
    ensures FixupWalk(input, i).error == "IndexError"
    decreases |input| - i
  {
    if i < |input| {
      if DigitLed(input[i]) {
        if FixLineResult(Drop(input[i], 3)).Ok? {
          FixupWalkError(input, i + 1);
        }
      } else if input[i] == "" {
        FixupWalkError(input, i + 1);
      }
    }
  }

  lemma {:induction false} CodeWalkError(input: seq<string>, i: nat)
    requires CodeWalk(input, i).Err?
    ensures CodeWalk(input, i).error == "IndexError"
    decreases |input| - i
  {
    if i < |input| && !(StartsWith(input[i], "```scala") && i + 1 >= |input|) {
      if StartsWith(input[i], "```scala") && StartsWith(input[i + 1], "1   //") {
        if FixupWalk(input, i + 1).Err? {
          FixupWalkError(input, i + 1);
        } else {
          CodeWalkError(input, FixupWalk(input, i + 1).value.1 + 1);
        }
      } else {
        CodeWalkError(input, i + 1);
      }
    }
  }

  /**
   * A listing `fixup` closes at line `j`: every line before it is numbered
   * or empty, line `j` is neither, and the listing ends with the closing
   * fence, an empty line and line `j` itself; one line is written per
   * numbered line.
   */
  lemma {:induction false} FixupWalkCloses(input: seq<string>, i: nat)
    requires FixupWalk(input, i).Ok?
    ensures var (lines, j) := FixupWalk(input, i).value;
      input[j] != "" && !DigitLed(input[j]) &&
      (forall k :: i <= k < j ==> DigitLed(input[k]) || input[k] == "") &&
      |lines| == Numbered(input[i..j]) + 3 &&
      lines[|lines| - 3..] == ["```", "", input[j]]
    decreases |input| - i
  {
    var j := FixupWalk(input, i).value.1;
    if j > i {
      FixupWalkCloses(input, i + 1);
      assert input[i..j] == [input[i]] + input[i + 1..j];
      assert input[i..j][1..] == input[i + 1..j];
    }
  }

  /** The number of numbered lines. */
  function Numbered(lines: seq<string>): nat {
    if lines == [] then 0 else (if DigitLed(lines[0]) then 1 else 0) + Numbered(lines[1..])
  }

  /** One numbered line of a listing: its fixed text joins the lines written so far. */
  lemma FixupNumbered(input: seq<string>, i: nat, done: seq<string>, l: string)
    requires i < |input| && DigitLed(input[i]) && FixLineResult(Drop(input[i], 3)) == Ok(l)
    ensures AfterFixup(done, FixupWalk(input, i)) == AfterFixup(done + [l], FixupWalk(input, i + 1))
  {
    match FixupWalk(input, i + 1)
    case Err(_) =>
    case Ok(res) =>
      assert done + ([l] + res.0) == (done + [l]) + res.0;
  }

  /** An empty line of a listing is dropped. */
  lemma FixupEmpty(input: seq<string>, i: nat, done: seq<string>)
    requires i < |input| && input[i] == ""
    ensures AfterFixup(done, FixupWalk(input, i)) == AfterFixup(done, FixupWalk(input, i + 1))
  {
  }

  /** The first line neither numbered nor empty closes the listing. */
  lemma FixupCloses(input: seq<string>, i: nat, done: seq<string>)
    requires i < |input| && input[i] != "" && !DigitLed(input[i])
    ensures AfterFixup(done, FixupWalk(input, i)) == Ok((done + ["```", "", input[i]], i))
  {
  }

  /** A line copied by the constructor's loop joins the lines written so far. */
  lemma CodeWalkCopy(input: seq<string>, i: nat, done: seq<string>)
    requires i < |input| && !(StartsWith(input[i], "```scala") && (i + 1 >= |input| || StartsWith(input[i + 1], "1   //")))
    ensures After(done, CodeWalk(input, i)) == After(done + [input[i]], CodeWalk(input, i + 1))
  {
    AfterAssoc(done, [input[i]], CodeWalk(input, i + 1));
  }

  /**
   * A numbered listing rewritten by `fixup` joins the lines written so far
   * and the walk resumes after its closing line; `fixup`'s error is the walk's.
   */
  lemma CodeWalkListing(input: seq<string>, i: nat, done: seq<string>)
    requires i + 1 < |input| && Opens(input, i)
    ensures FixupWalk(input, i + 1).Err? ==> CodeWalk(input, i) == Err(FixupWalk(input, i + 1).error)
    ensures FixupWalk(input, i + 1).Ok? ==> var res := FixupWalk(input, i + 1).value;
      After(done, CodeWalk(input, i)) == After((done + [input[i]]) + res.0, CodeWalk(input, res.1 + 1))
  {
    if FixupWalk(input, i + 1).Ok? {
      var res := FixupWalk(input, i + 1).value;
      AfterAssoc(done, [input[i]] + res.0, CodeWalk(input, res.1 + 1));
      assert done + ([input[i]] + res.0) == (done + [input[i]]) + res.0;
    }
  }

  class FixCode {
    const input: seq<string>
    var output: seq<string>
    var index: nat
    /** The exception the constructor raised, if any. */
    var raised: Option<string>

    /**
     * `fixup()`: keep the opening line, then rewrite the listing up to the
     * line that closes it.  Its error, if it raises, is returned.
     */
    method Fixup() returns (err: Option<string>)
      requires index < |input|
      modifies this`output, this`index
      ensures AfterFixup(old(output) + [input[old(index)]], FixupWalk(input, old(index) + 1)) ==
        (if err.None? then Ok((output, index)) else Err(err.value))
    {
      var out, i := output + [input[index]], index;
      ghost var goal := AfterFixup(out, FixupWalk(input, i + 1));
      while true
        invariant old(index) <= i < |input|
        invariant AfterFixup(out, FixupWalk(input, i + 1)) == goal
        decreases |input| - i
      {
        i := i + 1;
        if i >= |input| {
          output, index := out, i;
          return Some("IndexError");
        }
        var line := input[i];
        if DigitLed(line) {
          var fixed := FixLine(Drop(line, 3));
          if fixed.Err? {
            output, index := out, i;
            return Some(fixed.error);
          }
          FixupNumbered(input, i, out, fixed.value);
          out := out + [fixed.value];
        } else if line == "" {
          FixupEmpty(input, i, out);
        } else {
          FixupCloses(input, i, out);
          output, index := out + ["```", "", line], i;
          return None;
        }
      }
    }

    /**
     * `FixCode(source)`: copy the lines, rewriting every numbered listing;
     * the exception it raises, if any, is recorded in `raised`.
     */
    constructor (source: seq<string>)
      ensures input == source
      ensures CodeWalk(source, 0) == (if raised.None? then Ok(output) else Err(raised.value))
    {
      input := source;
      output := [];
      index := 0;
      raised := None;
      new;
      assert After([], CodeWalk(input, 0)) == CodeWalk(input, 0) by {
        if CodeWalk(input, 0).Ok? {
          assert [] + CodeWalk(input, 0).value == CodeWalk(input, 0).value;
        }
      }
      ghost var goal := CodeWalk(input, 0);
      var out, i := output, index;
      while i < |input|
        invariant i <= |input| && raised.None?
        invariant After(out, CodeWalk(input, i)) == goal
        decreases |input| - i
      {
        var line := input[i];
        if StartsWith(line, "```scala") {
          if i + 1 >= |input| {
            output, index, raised := out, i, Some("IndexError");
            return;
          }
          if StartsWith(input[i + 1], "1   //") {
            CodeWalkListing(input, i, out);
            output, index := out, i;
            var err := Fixup();
            if err.Some? {
              AfterFixupErr(out + [line], FixupWalk(input, i + 1), err.value);
              raised := err;
              return;
            }
            AfterFixupOk(out + [line], FixupWalk(input, i + 1), output, index);
            out, i := output, index;
          } else {
            CodeWalkCopy(input, i, out);
            out := out + [line];
          }
        } else {
          CodeWalkCopy(input, i, out);
          out := out + [line];
        }
        i := i + 1;
      }
      output, index := out, i;
      assert output + [] == output;
    }
  }
}
