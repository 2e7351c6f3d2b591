/**
 * `book_builder/zubtools.py`, `remove_checkboxes`: the review checkboxes and
 * "+ Notes:" lines are dropped from every Markdown file, runs of blank lines
 * are squeezed to one, and the whole pass stops at the first file that still
 * carries notes.
 */
module Zubtools {

  import opened Results
  import opened Text

  const NotesMarker := "+ Notes:"

  /** `check_for_notes`' test: a "+ Notes:" line with something after the marker. */
  predicate HasNotes(line: string) {
    StartsWith(line, NotesMarker) && |line| > |NotesMarker|
  }

  /** Some line of the file carries notes. */
  predicate AnyNotes(lines: seq<string>) {
    exists i :: 0 <= i < |lines| && HasNotes(lines[i])
  }

  /** The lines `check_for_notes` reports (and opens in the editor), in order. */
  function NoteLines(lines: seq<string>): seq<string> {
    if lines == [] then []
    else (if HasNotes(lines[0]) then [lines[0]] else []) + NoteLines(lines[1..])
  }

  /**
   * `check_for_notes(md, lines)`: whether any line carries notes, and the
   * lines reported on the way; every line is looked at, none stops the scan.
   */
  method CheckForNotes(lines: seq<string>) returns (notes: bool, reported: seq<string>)
    ensures notes <==> AnyNotes(lines)
    ensures reported == NoteLines(lines)
  {
    notes := false;
    reported := [];
    var i := 0;
    while i < |lines|
      invariant 0 <= i <= |lines|
      invariant notes <==> exists j :: 0 <= j < i && HasNotes(lines[j])
      invariant reported + NoteLines(lines[i..]) == NoteLines(lines)
    {
      NoteLinesAt(lines, i);
      if StartsWith(lines[i], NotesMarker) && |lines[i]| > |NotesMarker| {
        Assoc(reported, [lines[i]], NoteLines(lines[i + 1..]));
        reported := reported + [lines[i]];
        notes := true;
      }
      i := i + 1;
    }
  }

  /** The lines reported from position `i` on: line `i` if it has notes, then the rest. */
  lemma NoteLinesAt(lines: seq<string>, i: nat)
    requires i < |lines|
    ensures NoteLines(lines[i..]) == (if HasNotes(lines[i]) then [lines[i]] else []) + NoteLines(lines[i + 1..])
  {
    assert lines[i..][1..] == lines[i + 1..];
  }

  /** The reported lines are exactly the lines with notes. */
  lemma {:induction false} NoteLinesMembers(lines: seq<string>, l: string)
    ensures l in NoteLines(lines) <==> l in lines && HasNotes(l)
  {
    if lines != [] {
      NoteLinesMembers(lines[1..], l);
      assert lines == [lines[0]] + lines[1..];
    }
  }

  /** A file reports notes exactly when it has a notes line. */
  lemma CheckForNotesReports(lines: seq<string>)
    ensures AnyNotes(lines) <==> NoteLines(lines) != []
  {
    if AnyNotes(lines) {
      var i :| 0 <= i < |lines| && HasNotes(lines[i]);
      NoteLinesMembers(lines, lines[i]);
    } else if NoteLines(lines) != [] {
      NoteLinesMembers(lines, NoteLines(lines)[0]);
    }
  }

  // ---------------------------------------------------------------------------
  // The rewrite of one file
  // ---------------------------------------------------------------------------

  /** `determine(line)`: a review checkbox or the start of the notes. */
  predicate Determine(line: string) {
    EndsWith(Strip(line), "] Ready for Review") ||
    EndsWith(Strip(line), "] Tech Checked") ||
    StartsWith(line, NotesMarker)
  }

  /** `filterfalse(determine, lines)` */
  function Kept(lines: seq<string>): seq<string> {
    if lines == [] then []
    else (if Determine(lines[0]) then [] else [lines[0]]) + Kept(lines[1..])
  }

  /** A line survives exactly when it is present and not a checkbox or notes line. */
  lemma {:induction false} KeptMembers(lines: seq<string>, l: string)
    ensures l in Kept(lines) <==> l in lines && !Determine(l)
  {
    if lines != [] {
      KeptMembers(lines[1..], l);
      assert lines == [lines[0]] + lines[1..];
    }
  }

  /** Filtering keeps the order: the survivors of a concatenation are the survivors of each part. */
  lemma {:induction false} KeptConcat(a: seq<string>, b: seq<string>)
    ensures Kept(a + b) == Kept(a) + Kept(b)
  {
    if a != [] {
      assert (a + b)[1..] == a[1..] + b;
      KeptConcat(a[1..], b);
    } else {
      assert a + b == b;
    }
  }

  /** The number of line breaks at the start of `s`. */
  function NewlineRun(s: string): (k: nat)
    ensures k <= |s|
    ensures forall i :: 0 <= i < k ==> s[i] == '\n'
    ensures k < |s| ==> s[k] != '\n'
  {
    if s != [] && s[0] == '\n' then 1 + NewlineRun(s[1..]) else 0
  }

  /** `re.sub('\n{2,}', '\n\n', s)`: every run of two or more line breaks becomes exactly two. */
  function CollapseNewlines(s: string): string
    decreases |s|
  {
    if s == [] then []
    else if s[0] == '\n' then
      var k := NewlineRun(s);
      (if k >= 2 then "\n\n" else "\n") + CollapseNewlines(s[k..])
    else [s[0]] + CollapseNewlines(s[1..])
  }

  /** No three consecutive line breaks. */
  predicate NoTriple(s: string) {
    forall i :: 0 <= i && i + 2 < |s| ==> !(s[i] == '\n' && s[i + 1] == '\n' && s[i + 2] == '\n')
  }

  /** The collapse starts with the character the text starts with. */
  lemma {:induction false} CollapseHead(s: string)
    ensures CollapseNewlines(s) == [] <==> s == []
    ensures s != [] ==> CollapseNewlines(s)[0] == s[0]
  {
  }

  /** After the collapse no three line breaks are adjacent. */
  lemma {:induction false} CollapseNoTriple(s: string)
    ensures NoTriple(CollapseNewlines(s))
    decreases |s|
  {
    if s != [] {
      if s[0] == '\n' {
        var k := NewlineRun(s);
        CollapseNoTriple(s[k..]);
        CollapseHead(s[k..]);
        NoTripleAfterRun(if k >= 2 then "\n\n" else "\n", CollapseNewlines(s[k..]));
      } else {
        CollapseNoTriple(s[1..]);
        NoTripleCons(s[0], CollapseNewlines(s[1..]));
      }
    }
  }

  lemma NoTripleAfterRun(p: string, rest: string)
    requires |p| <= 2 && NoTriple(rest) && (rest == [] || rest[0] != '\n')
    ensures NoTriple(p + rest)
  {
    var r := p + rest;
    forall i | 0 <= i && i + 2 < |r|
      ensures !(r[i] == '\n' && r[i + 1] == '\n' && r[i + 2] == '\n')
    {
      if i >= |p| {
        assert r[i] == rest[i - |p|] && r[i + 1] == rest[i + 1 - |p|] && r[i + 2] == rest[i + 2 - |p|];
      } else {
        assert r[|p|] == rest[0];
      }
    }
  }

  lemma NoTripleCons(c: char, rest: string)
    requires c != '\n' && NoTriple(rest)
    ensures NoTriple([c] + rest)
  {
    var r := [c] + rest;
    forall i | 1 <= i && i + 2 < |r|
      ensures !(r[i] == '\n' && r[i + 1] == '\n' && r[i + 2] == '\n')
    {
      assert r[i] == rest[i - 1] && r[i + 1] == rest[i] && r[i + 2] == rest[i + 1];
    }
  }

  /** Text without three adjacent line breaks is left alone; so collapsing twice is collapsing once. */
  lemma {:induction false} CollapseFixed(s: string)
    requires NoTriple(s)
    ensures CollapseNewlines(s) == s
    decreases |s|
  {
    if s != [] {
      if s[0] == '\n' {
        var k := NewlineRun(s);
        assert |s| < 3 || !(s[0] == '\n' && s[1] == '\n' && s[2] == '\n');
        assert k < 3;
        assert NoTriple(s[k..]) by {
          forall i | 0 <= i && i + 2 < |s[k..]|
            ensures !(s[k..][i] == '\n' && s[k..][i + 1] == '\n' && s[k..][i + 2] == '\n')
          {
            assert s[k..][i] == s[k + i] && s[k..][i + 1] == s[k + i + 1] && s[k..][i + 2] == s[k + i + 2];
          }
        }
        CollapseFixed(s[k..]);
        assert s[..k] == (if k >= 2 then "\n\n" else "\n");
        assert s == s[..k] + s[k..];
      } else {
        assert NoTriple(s[1..]) by {
          forall i | 0 <= i && i + 2 < |s[1..]|
            ensures !(s[1..][i] == '\n' && s[1..][i + 1] == '\n' && s[1..][i + 2] == '\n')
          {
            assert s[1..][i] == s[i + 1] && s[1..][i + 1] == s[i + 2] && s[1..][i + 2] == s[i + 3];
          }
        }
        CollapseFixed(s[1..]);
      }
    }
  }

  /** Collapsing is idempotent. */
  lemma CollapseIdempotent(s: string)
    ensures CollapseNewlines(CollapseNewlines(s)) == CollapseNewlines(s)
  {
    CollapseNoTriple(s);
    CollapseFixed(CollapseNewlines(s));
  }

  /** The text with every line break removed. */
  function Unbroken(s: string): string {
    if s == [] then [] else (if s[0] == '\n' then [] else [s[0]]) + Unbroken(s[1..])
  }

  lemma {:induction false} UnbrokenConcat(a: string, b: string)
    ensures Unbroken(a + b) == Unbroken(a) + Unbroken(b)
  {
    if a != [] {
      assert (a + b)[1..] == a[1..] + b;
      UnbrokenConcat(a[1..], b);
    } else {
      assert a + b == b;
    }
  }

  lemma {:induction false} UnbrokenBreaks(s: string)
    requires forall i :: 0 <= i < |s| ==> s[i] == '\n'
    ensures Unbroken(s) == []
  {
    if s != [] {
      UnbrokenBreaks(s[1..]);
    }
  }

  /** Only line breaks are touched: every other character survives, in order. */
  lemma {:induction false} CollapseKeepsText(s: string)
    ensures Unbroken(CollapseNewlines(s)) == Unbroken(s)
    decreases |s|
  {
    if s != [] {
      if s[0] == '\n' {
        var k := NewlineRun(s);
        var p: string := if k >= 2 then "\n\n" else "\n";
        CollapseKeepsText(s[k..]);
        UnbrokenConcat(p, CollapseNewlines(s[k..]));
        UnbrokenBreaks(p);
        assert s == s[..k] + s[k..];
        UnbrokenConcat(s[..k], s[k..]);
        UnbrokenBreaks(s[..k]);
      } else {
        CollapseKeepsText(s[1..]);
        UnbrokenConcat([s[0]], CollapseNewlines(s[1..]));
      }
    }
  }

  /** The text written back for a file of `lines`: survivors joined, collapsed, with a final line break. */
  function Rewritten(lines: seq<string>): (text: string)
    ensures text != [] && text[|text| - 1] == '\n'
  {
    CollapseNewlines(Join(Kept(lines), "\n")) + "\n"
  }

  /** The written text never holds three adjacent line breaks before its final one. */
  lemma RewrittenLayout(lines: seq<string>)
    ensures var text := Rewritten(lines); NoTriple(text[..|text| - 1])
  {
    var text := Rewritten(lines);
    CollapseNoTriple(Join(Kept(lines), "\n"));
    assert text[..|text| - 1] == CollapseNewlines(Join(Kept(lines), "\n"));
  }

  // ---------------------------------------------------------------------------
  // remove_checkboxes over the Markdown files
  // ---------------------------------------------------------------------------

  /** The position of the first file with notes, or the number of files. */
  function FirstWithNotes(files: seq<(string, string)>): (k: nat)
    ensures k <= |files|
  {
    if files == [] then 0
    else if AnyNotes(SplitLines(files[0].1)) then 0
    else 1 + FirstWithNotes(files[1..])
  }

  /** `FirstWithNotes` is the first file with notes: none before it has any. */
  lemma {:induction false} FirstWithNotesIs(files: seq<(string, string)>, i: nat)
    requires i <= |files|
    requires forall j :: 0 <= j < i ==> !AnyNotes(SplitLines(files[j].1))
    requires i == |files| || AnyNotes(SplitLines(files[i].1))
    ensures FirstWithNotes(files) == i
  {
    if i > 0 {
      assert !AnyNotes(SplitLines(files[0].1));
      forall j | 0 <= j < i - 1
        ensures !AnyNotes(SplitLines(files[1..][j].1))
      {
        assert files[1..][j] == files[j + 1];
      }
      FirstWithNotesIs(files[1..], i - 1);
    }
  }

  /**
   * `remove_checkboxes()`, given the Markdown files as (name, text): the
   * files written back, in order, and the message returned when a file
   * still has notes.  Every file before the first one with notes is
   * rewritten; that file and all later ones are left alone.
   */
  method RemoveCheckboxes(files: seq<(string, string)>) returns (written: seq<(string, string)>, r: Option<string>)
    ensures r.Some? <==> FirstWithNotes(files) < |files|
    ensures r.Some? ==> r.value == "Notes need changing to {{}}"
    ensures |written| == FirstWithNotes(files)
    ensures forall i :: 0 <= i < |written| ==> written[i] == (files[i].0, Rewritten(SplitLines(files[i].1)))
  {
    written := [];
    var i := 0;
    while i < |files|
      invariant 0 <= i <= |files|
      invariant forall j :: 0 <= j < i ==> !AnyNotes(SplitLines(files[j].1))
      invariant |written| == i
      invariant forall j :: 0 <= j < i ==> written[j] == (files[j].0, Rewritten(SplitLines(files[j].1)))
    {
      var lines := SplitLines(files[i].1);
      var notes, _ := CheckForNotes(lines);
      if notes {
        FirstWithNotesIs(files, i);
        return written, Some("Notes need changing to {{}}");
      }
      var kept := Kept(lines);
      var text := CollapseNewlines(Join(kept, "\n"));
      written := written + [(files[i].0, text + "\n")];
      i := i + 1;
    }
    FirstWithNotesIs(files, i);
    r := None;
  }
}
