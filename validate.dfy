/**
 * `book_builder/validate.py`, the framework the validators share: the
 * editor that collects what to open afterwards, a Markdown file with its
 * code listings and its error buffer, the fields derived from a listing,
 * and the data and exclusion files the validators consult and append to.
 */
module Validate {

  import opened Results
  import opened Text
  import opened Numerals

  // ---------------------------------------------------------------------------
  // Editor
  // ---------------------------------------------------------------------------

  /** The global `Editor`: the data files and Markdown positions to open once validation is over. */
  class Editor {
    var dataFiles: set<string>
    var markdownFiles: seq<string>

    constructor ()
      ensures dataFiles == {} && markdownFiles == []
    {
      dataFiles := {};
      markdownFiles := [];
    }
  }

  // ---------------------------------------------------------------------------
  // Code listings
  // ---------------------------------------------------------------------------

  predicate AllLower(s: string) {
    forall j :: 0 <= j < |s| ==> IsLower(s[j])
  }

  /**
   * `^// .+?\.[a-z]+$` matching a slug line: `"// "`, at least one
   * character, a dot, then one or more lower-case letters up to the end.
   */
  ghost predicate SluglineMatch(slug: string) {
    StartsWith(slug, "// ") &&
    exists i :: 4 <= i < |slug| - 1 && slug[i] == '.' && AllLower(slug[i + 1..])
  }

  /** The same test, read from the last dot: the letters after a dot cannot hold another dot. */
  predicate ProperSlugline(slug: string) {
    var i := RFindChar(slug, '.');
    StartsWith(slug, "// ") && 4 <= i < |slug| - 1 && AllLower(slug[i + 1..])
  }

  /** The scan from the last dot decides exactly what the regular expression matches. */
  lemma ProperSluglineIff(slug: string)
    ensures ProperSlugline(slug) <==> SluglineMatch(slug)
  {
    var r := RFindChar(slug, '.');
    if SluglineMatch(slug) {
      var i :| 4 <= i < |slug| - 1 && slug[i] == '.' && AllLower(slug[i + 1..]);
      forall j | i < j < |slug| ensures slug[j] != '.' {
        assert slug[i + 1..][j - i - 1] == slug[j];
      }
      assert r == i;
    }
  }

  /** `slug[3:].split('/')[0]` */
  function Directory(slug: string): string
    requires |slug| >= 3
  {
    Split(slug[3..], "/")[0]
  }

  /** The directory is what follows `"// "` up to the first `/`. */
  lemma DirectorySpec(slug: string)
    requires |slug| >= 3
    ensures '/' !in Directory(slug)
    ensures Directory(slug) == slug[3..] || StartsWith(slug[3..], Directory(slug) + "/")
  {
    var s := slug[3..];
    SplitFirst(s, "/");
    FindCharPrefix(s, '/');
    var k := Find(s, "/");
    if k >= 0 {
      assert s[..k + 1] == s[..k] + "/";
    }
  }

  /** The first line that starts with `"package "`, or None. */
  function PackageLine(lines: seq<string>): (r: Option<nat>)
    ensures r.Some? ==> r.value < |lines| && StartsWith(lines[r.value], "package ")
    ensures forall k :: 0 <= k < |lines| && (r.None? || k < r.value) ==> !StartsWith(lines[k], "package ")
  {
    if lines == [] then None
    else if StartsWith(lines[0], "package ") then Some(0)
    else
      match PackageLine(lines[1..])
      case None => None
      case Some(k) => Some(k + 1)
  }

  /** The `(\S*)` group of `^package (\S*).*$`: the run of non-whitespace after `"package "`. */
  function Capture(line: string): string
    requires StartsWith(line, "package ")
  {
    line[8..8 + IndexOfSpace(line[8..])]
  }

  /** `package`: the first capture with every `;` removed, or `""` when no line starts with `"package "`. */
  function Package(code: string): string {
    var lines := SplitLines(code);
    match PackageLine(lines)
    case None => ""
    case Some(k) => Replace(Capture(lines[k]), ";", "")
  }

  /** A package never holds `;` or whitespace, and is empty without a `package` line. */
  lemma PackageClean(code: string)
    ensures ';' !in Package(code)
    ensures forall c :: IsSpace(c) ==> c !in Package(code)
    ensures PackageLine(SplitLines(code)).None? ==> Package(code) == ""
  {
    var lines := SplitLines(code);
    if PackageLine(lines).Some? {
      var c := Capture(lines[PackageLine(lines).value]);
      ReplaceRemoves(c, ';', "");
      forall d | IsSpace(d) ensures d !in Replace(c, ";", "") {
        ReplaceKeepsAbsent(c, ";", "", d);
      }
    }
  }

  /** A first `package p;` line, `p` without spaces or semicolons, gives the package `p`. */
  lemma PackageOfLine(code: string, k: nat, p: string, tail: string)
    requires PackageLine(SplitLines(code)) == Some(k)
    requires SplitLines(code)[k] == "package " + p + tail
    requires ';' !in p && forall i :: 0 <= i < |p| ==> !IsSpace(p[i])
    requires tail == [] || IsSpace(tail[0]) || tail == ";" || (tail[0] == ';' && |tail| > 1 && IsSpace(tail[1]))
    ensures Package(code) == p
  {
    var line := SplitLines(code)[k];
    var rest := line[8..];
    assert rest == p + tail;
    assert forall i :: 0 <= i < |p| ==> rest[i] == p[i];
    var r := IndexOfSpace(rest);
    assert r >= |p|;
    if tail == [] || IsSpace(tail[0]) {
      assert tail != [] ==> rest[|p|] == tail[0];
      assert r == |p|;
      assert Capture(line) == p;
      ReplaceNothing(p, ';', "");
    } else {
      assert rest[|p|] == ';';
      assert |tail| > 1 ==> rest[|p| + 1] == tail[1];
      assert r == |p| + 1;
      assert Capture(line) == p + ";";
      ReplaceConcat(p, ";", ';', "");
      ReplaceNothing(p, ';', "");
      ReplaceSingle(';', ';', "");
    }
  }

  /**
   * A `CodeListing`: its marker line, its code, the code's lines, the slug
   * (the first of them), whether the slug is a proper slugline, the
   * directory the slug names, the slug's first line index in the Markdown
   * file, and the package.
   */
  datatype CodeListing = CodeListing(
    marker: string, code: string, lines: seq<string>, slug: string,
    properSlugline: bool, directory: Option<string>, mdStartingLine: nat, package: string)

  /** The fields of a listing agree with its code, as `CodeListing.__init__` derives them. */
  predicate WellFormed(l: CodeListing) {
    l.lines == SplitLines(l.code) && l.lines != [] && l.slug == l.lines[0] &&
    (forall i :: 0 <= i < |l.lines| ==> '\n' !in l.lines[i]) &&
    l.properSlugline == ProperSlugline(l.slug) &&
    (l.directory.Some? <==> l.properSlugline) &&
    (l.directory.Some? ==> |l.slug| >= 3 && l.directory.value == Directory(l.slug)) &&
    l.package == Package(l.code)
  }

  /**
   * `CodeListing(marker, code, md)`: IndexError for code without lines,
   * ValueError when the slug is not one of the Markdown file's lines.
   */
  function NewListing(marker: string, code: string, mdLines: seq<string>): (r: Result<CodeListing, string>)
    ensures SplitLines(code) == [] ==> r == Err("IndexError")
    ensures SplitLines(code) != [] && SplitLines(code)[0] !in mdLines ==> r == Err("ValueError")
    ensures r.Ok? ==>
      var l := r.value;
      WellFormed(l) && l.marker == marker && l.code == code &&
      (l.properSlugline <==> SluglineMatch(l.slug)) &&
      l.mdStartingLine < |mdLines| && mdLines[l.mdStartingLine] == l.slug &&
      (forall k :: 0 <= k < l.mdStartingLine ==> mdLines[k] != l.slug)
  {
    var lines := SplitLines(code);
    if lines == [] then Err("IndexError")
    else
      var slug := lines[0];
      var proper := ProperSlugline(slug);
      ProperSluglineIff(slug);
      SplitLinesNoBreaks(code);
      match IndexOfLine(mdLines, slug)
      case Err(e) => Err(e)
      case Ok(start) =>
        Ok(CodeListing(marker, code, lines, slug, proper,
          if proper then Some(Directory(slug)) else None, start, Package(code)))
  }

  /** The listings of a file, built in order; the first failure stops the construction. */
  function Listings(found: seq<(string, string)>, mdLines: seq<string>): (r: Result<seq<CodeListing>, string>)
    ensures r.Ok? ==> (|r.value| == |found| &&
      forall i :: 0 <= i < |found| ==> NewListing(found[i].0, found[i].1, mdLines) == Ok(r.value[i]))
    ensures r.Err? ==> exists i :: 0 <= i < |found| && NewListing(found[i].0, found[i].1, mdLines) == Err(r.error)
  {
    if found == [] then Ok([])
    else
      match NewListing(found[0].0, found[0].1, mdLines)
      case Err(e) => Err(e)
      case Ok(l) =>
        match Listings(found[1..], mdLines)
        case Err(e) => Err(e)
        case Ok(ls) => Ok([l] + ls)
  }

  /** Every listing a file holds is well formed. */
  lemma ListingsWellFormed(found: seq<(string, string)>, mdLines: seq<string>)
    requires Listings(found, mdLines).Ok?
    ensures forall l :: l in Listings(found, mdLines).value ==> WellFormed(l)
  {
    var ls := Listings(found, mdLines).value;
    forall l | l in ls ensures WellFormed(l) {
      var i :| 0 <= i < |ls| && ls[i] == l;
      assert NewListing(found[i].0, found[i].1, mdLines) == Ok(l);
    }
  }

  /**
   * Reading a Markdown file: the title (its first line; IndexError for a
   * file without lines) and the listings found in its text, taken in the
   * order found as (marker, code) pairs.
   */
  function Opened(text: string, found: seq<(string, string)>): (r: Result<(string, seq<CodeListing>), string>)
    ensures SplitLines(text) == [] ==> r == Err("IndexError")
    ensures r.Ok? ==> (SplitLines(text) != [] && r.value.0 == SplitLines(text)[0] &&
      Listings(found, SplitLines(text)) == Ok(r.value.1))
    ensures SplitLines(text) != [] && Listings(found, SplitLines(text)).Ok? ==> r.Ok?
  {
    var lines := SplitLines(text);
    if lines == [] then Err("IndexError")
    else
      match Listings(found, lines)
      case Err(e) => Err(e)
      case Ok(ls) => Ok((lines[0], ls))
  }

  // ---------------------------------------------------------------------------
  // The error buffer of a Markdown file
  // ---------------------------------------------------------------------------

  /** One call of `error(msg, line_number)`; the line number is None when omitted. */
  datatype Report = Report(msg: string, line: Option<int>)

  /** The error state of a Markdown file: `titled`, `err_msg`, `line_number`. */
  datatype Buffer = Buffer(titled: bool, errMsg: string, lineNumber: Option<int>)

  /** Python's truth value of an optional line number: None and 0 are false. */
  predicate Truthy(n: Option<int>) {
    n.Some? && n.value != 0
  }

  /** The state after one `error` call on a file named `name`. */
  function Logged(b: Buffer, name: string, r: Report): Buffer {
    Buffer(true,
      b.errMsg + (if b.titled then "" else name + "\n") + "    " + r.msg + "\n",
      if Truthy(r.line) then r.line else b.lineNumber)
  }

  /** The state after a sequence of `error` calls. */
  function LogAll(b: Buffer, name: string, rs: seq<Report>): Buffer {
    if rs == [] then b else Logged(LogAll(b, name, rs[..|rs| - 1]), name, rs[|rs| - 1])
  }

  /** The message lines `error` writes: each message indented by four spaces. */
  function Indented(rs: seq<Report>): (ls: seq<string>)
    ensures |ls| == |rs|
  {
    if rs == [] then [] else Indented(rs[..|rs| - 1]) + ["    " + rs[|rs| - 1].msg]
  }

  /** Each line is its message behind four spaces. */
  lemma {:induction false} IndentedAt(rs: seq<Report>)
    ensures forall i :: 0 <= i < |rs| ==> Indented(rs)[i] == "    " + rs[i].msg
    decreases |rs|
  {
    if rs != [] {
      var p := rs[..|rs| - 1];
      IndentedAt(p);
      assert forall i :: 0 <= i < |p| ==> p[i] == rs[i];
    }
  }

  /**
   * After any sequence of errors the buffer holds the file name once, ahead
   * of the first message ever reported, then every message on its own
   * indented line; the title flag is set once anything was reported.
   */
  lemma {:induction false} LogAllText(b: Buffer, name: string, rs: seq<Report>)
    ensures LogAll(b, name, rs).errMsg ==
      b.errMsg + (if b.titled || rs == [] then "" else name + "\n") + Terminated(Indented(rs))
    ensures LogAll(b, name, rs).titled == (b.titled || rs != [])
    decreases |rs|
  {
    if rs != [] {
      var p, line := rs[..|rs| - 1], "    " + rs[|rs| - 1].msg;
      LogAllText(b, name, p);
      var prev := LogAll(b, name, p);
      var t := Terminated(Indented(p));
      var x := b.errMsg + (if b.titled then "" else name + "\n");
      assert Indented(rs) == Indented(p) + [line];
      TerminatedAppend(Indented(p), line);
      assert LogAll(b, name, rs) == Logged(prev, name, rs[|rs| - 1]);
      if p == [] {
        assert prev == b && t == [];
        assert LogAll(b, name, rs).errMsg == x + t + line + "\n";
      } else {
        assert prev.titled && prev.errMsg == x + t;
        assert LogAll(b, name, rs).errMsg == x + t + line + "\n";
      }
      Assoc4(x, t, line, "\n");
    }
  }

  /** Without a truthy line number among the reports, the line number stays. */
  lemma {:induction false} LogAllKeepsLine(b: Buffer, name: string, rs: seq<Report>)
    requires forall k :: 0 <= k < |rs| ==> !Truthy(rs[k].line)
    ensures LogAll(b, name, rs).lineNumber == b.lineNumber
    decreases |rs|
  {
    if rs != [] {
      var p := rs[..|rs| - 1];
      assert forall k :: 0 <= k < |p| ==> p[k] == rs[k];
      LogAllKeepsLine(b, name, p);
    }
  }

  /** Otherwise the line number is the last truthy one reported. */
  lemma {:induction false} LogAllLastLine(b: Buffer, name: string, rs: seq<Report>, k: nat)
    requires k < |rs| && Truthy(rs[k].line)
    requires forall j :: k < j < |rs| ==> !Truthy(rs[j].line)
    ensures LogAll(b, name, rs).lineNumber == rs[k].line
    decreases |rs|
  {
    if k < |rs| - 1 {
      var p := rs[..|rs| - 1];
      assert p[k] == rs[k];
      assert forall j :: k < j < |p| ==> p[j] == rs[j];
      LogAllLastLine(b, name, p, k);
    }
  }

  /**
   * A file that reported errors to a fresh buffer shows its name as the
   * first line and the messages below it, one line each.
   */
  lemma FreshLogLines(name: string, rs: seq<Report>)
    requires rs != [] && '\n' !in name
    requires forall i :: 0 <= i < |rs| ==> '\n' !in rs[i].msg
    ensures SplitLines(LogAll(Buffer(false, "", None), name, rs).errMsg) == [name] + Indented(rs)
  {
    FreshLogText(Buffer(false, "", None), name, rs);
    IndentedNoBreaks(rs);
    var t := Terminated(Indented(rs));
    SplitLinesTerminated(Indented(rs));
    SplitLinesCons(name, t);
  }

  /** A fresh buffer ends up holding the name line, then the message lines. */
  lemma FreshLogText(b: Buffer, name: string, rs: seq<Report>)
    requires !b.titled && b.errMsg == [] && rs != []
    ensures LogAll(b, name, rs).errMsg == name + "\n" + Terminated(Indented(rs))
  {
    LogAllText(b, name, rs);
  }

  lemma IndentedNoBreaks(rs: seq<Report>)
    requires forall i :: 0 <= i < |rs| ==> '\n' !in rs[i].msg
    ensures forall i :: 0 <= i < |rs| ==> '\n' !in Indented(rs)[i]
  {
    IndentedAt(rs);
    forall i | 0 <= i < |rs| ensures '\n' !in Indented(rs)[i] {
      assert Indented(rs)[i] == "    " + rs[i].msg;
    }
  }

  /** Where `edit` points the editor: `path:line` (one-based) for a truthy line number, else the path. */
  function EditTarget(path: string, n: Option<int>): string {
    if Truthy(n) then path + ":" + IntToString(n.value + 1) else path
  }

  /** The position after the colon reads back as the one-based line. */
  lemma EditTargetLine(path: string, n: Option<int>)
    requires Truthy(n)
    ensures EditTarget(path, n)[..|path| + 1] == path + ":"
    ensures ParseInt(EditTarget(path, n)[|path| + 1..]) == Some(n.value + 1)
  {
    var t := EditTarget(path, n);
    assert t[|path| + 1..] == IntToString(n.value + 1);
    ParseIntToString(n.value + 1);
  }

  /**
   * A Markdown file: its path and file name, text, lines, title and code
   * listings, and the error state that `error` builds up.
   */
  class MarkdownFile {
    const path: string
    const name: string
    const text: string
    const lines: seq<string>
    const title: string
    const listings: seq<CodeListing>
    var titled: bool
    var errMsg: string
    var lineNumber: Option<int>

    function State(): Buffer
      reads this
    {
      Buffer(titled, errMsg, lineNumber)
    }

    /** `MarkdownFile(md_path)` over the file's text and the (marker, code) pairs found in it. */
    constructor (path: string, name: string, text: string, found: seq<(string, string)>)
      requires Opened(text, found).Ok?
      ensures this.path == path && this.name == name && this.text == text
      ensures lines == SplitLines(text) && lines != [] && title == lines[0]
      ensures listings == Opened(text, found).value.1
      ensures forall l :: l in listings ==> WellFormed(l)
      ensures State() == Buffer(false, "", None)
    {
      this.path := path;
      this.name := name;
      this.text := text;
      lines := SplitLines(text);
      title := SplitLines(text)[0];
      listings := Opened(text, found).value.1;
      ListingsWellFormed(found, SplitLines(text));
      titled := false;
      errMsg := "";
      lineNumber := None;
    }

    /**
     * `error(msg, line_number)`: the file name heads the buffer once, each
     * message adds an indented line, a truthy line number replaces the
     * stored one; the whole buffer is returned.
     */
    method Error(msg: string, n: Option<int>) returns (r: string)
      modifies this
      ensures errMsg == old(errMsg) + (if old(titled) then "" else name + "\n") + "    " + msg + "\n"
      ensures titled
      ensures lineNumber == if Truthy(n) then n else old(lineNumber)
      ensures r == errMsg
    {
      if !titled {
        errMsg := errMsg + name + "\n";
        titled := true;
      }
      errMsg := errMsg + "    " + msg + "\n";
      if Truthy(n) {
        lineNumber := n;
      }
      r := errMsg;
    }

    /** A validator's reports, handed to `error` one after the other. */
    method ErrorEach(rs: seq<Report>)
      modifies this
      ensures State() == LogAll(old(State()), name, rs)
    {
      var i := 0;
      while i < |rs|
        invariant i <= |rs|
        invariant State() == LogAll(old(State()), name, rs[..i])
      {
        assert rs[..i + 1][..i] == rs[..i];
        var _ := Error(rs[i].msg, rs[i].line);
        i := i + 1;
      }
      assert rs[..|rs|] == rs;
    }

    /** What `show` prints: the buffer, or nothing while it is empty. */
    function Shown(): (r: Option<string>)
      reads this
      ensures r.None? <==> errMsg == ""
      ensures r.Some? ==> r.value == errMsg
    {
      if errMsg == "" then None else Some(errMsg)
    }

    /** `edit()`: a file that reported something queues its position for the editor. */
    method Edit(ed: Editor)
      modifies ed
      ensures ed.dataFiles == old(ed.dataFiles)
      ensures ed.markdownFiles == old(ed.markdownFiles) + if errMsg == "" then [] else [EditTarget(path, lineNumber)]
    {
      if errMsg != "" {
        ed.markdownFiles := ed.markdownFiles + [EditTarget(path, lineNumber)];
      }
    }
  }

  // ---------------------------------------------------------------------------
  // Data and exclusion files
  // ---------------------------------------------------------------------------

  /** A value of the class-wide `Data.names` table: the string "False" or the boolean True. */
  datatype Latch = Word(s: string) | Flag(b: bool)

  /** Python's truth value: a non-empty string is true, whatever it says. */
  predicate LatchTruthy(v: Latch) {
    match v
    case Word(s) => s != ""
    case Flag(b) => b
  }

  /** `Data.names`, shared by every data file, and the notices printed so far. */
  class Registry {
    var names: map<string, Latch>
    var printed: seq<string>

    constructor ()
      ensures names == map[] && printed == []
    {
      names := map[];
      printed := [];
    }
  }

  /** Whether the "Needs Editing!" notice fires for a file whose name the table holds, or is about to. */
  predicate NoticeFires(names: map<string, Latch>, fileName: string, data: string, msgbreak: string) {
    Contains(data, msgbreak) && !LatchTruthy(if fileName in names then names[fileName] else Word("False"))
  }

  predicate AllTruthy(names: map<string, Latch>) {
    forall k :: k in names ==> LatchTruthy(names[k])
  }

  /**
   * The notice can never fire: the table starts with the truthy string
   * "False" and only ever receives that or True.
   */
  lemma NoticeNeverFires(names: map<string, Latch>, fileName: string, data: string, msgbreak: string)
    requires AllTruthy(names)
    ensures !NoticeFires(names, fileName, data, msgbreak)
  {
    if fileName in names {
      assert LatchTruthy(names[fileName]);
    }
  }

  /** `{line.strip() for line in data.splitlines()}` */
  function StrippedLines(data: string): set<string> {
    set l | l in SplitLines(data) :: Strip(l)
  }

  /** Every entry of the stripped-line set is also found by substring containment. */
  lemma StrippedLinesContained(data: string, x: string)
    requires x in StrippedLines(data)
    ensures Contains(data, x)
  {
    var l :| l in SplitLines(data) && Strip(l) == x;
    SplitLinesContained(data, l);
    var a := StripFrame(l);
    ContainsAt(l, x, a);
    ContainsTrans(data, l, x);
  }

  /**
   * The converse fails: containment also finds part of a line.  A file
   * holding the one line `Point.kt` excludes `Point`, which is not one of
   * its stripped lines.
   */
  lemma ContainmentIsNotMembership(line: string, k: nat)
    requires 0 < k < |line| && '\n' !in line && !IsSpace(line[0]) && !IsSpace(line[|line| - 1])
    ensures Contains(line + "\n", line[..k]) && line[..k] !in StrippedLines(line + "\n")
  {
    var data := line + "\n";
    assert OccursAt(data, line[..k], 0);
    assert data == line + "\n" + [];
    SplitLinesCons(line, []);
    StripUnchanged(line);
    assert StrippedLines(data) == {line};
    assert |line[..k]| != |line|;
  }

  /** What `Data.error` appends: the Markdown file's name, the indented message, the break marker. */
  function ExclusionEntry(mdName: string, msg: string, msgbreak: string): string {
    mdName + ":\n" + "    " + msg + "\n" + msgbreak + "\n"
  }

  /** The entry is exactly three lines when none of its parts holds a break. */
  lemma ExclusionEntryLines(mdName: string, msg: string, msgbreak: string)
    requires '\n' !in mdName && '\n' !in msg && '\n' !in msgbreak
    ensures SplitLines(ExclusionEntry(mdName, msg, msgbreak)) == [mdName + ":", "    " + msg, msgbreak]
  {
    var ls := [mdName + ":", "    " + msg, msgbreak];
    assert Terminated(ls[2..]) == msgbreak + "\n";
    assert Terminated(ls[1..]) == "    " + msg + "\n" + msgbreak + "\n";
    assert Terminated(ls) == ExclusionEntry(mdName, msg, msgbreak);
    SplitLinesTerminated(ls);
  }

  /**
   * A data file (an exclusion file is one kept in the `exclusions`
   * directory): the text read when it was opened, which `in` and `set`
   * consult, and the file's contents, which `error` appends to.
   */
  class Data {
    const fileName: string
    const path: string
    const data: string
    var stored: string

    /**
     * `Data(data_file_name, storage_dir)`: a missing file is created empty;
     * the notice would print when the text holds the break marker and the
     * name's entry is false, which it never is.
     */
    constructor (fileName: string, dir: string, existing: Option<string>, msgbreak: string, reg: Registry)
      modifies reg
      ensures this.fileName == fileName && path == dir + "/" + fileName
      ensures data == (if existing.Some? then existing.value else "") && stored == data
      ensures NoticeFires(old(reg.names), fileName, data, msgbreak) ==>
        reg.names == old(reg.names)[fileName := Flag(true)] && reg.printed == old(reg.printed) + [fileName + " Needs Editing!"]
      ensures !NoticeFires(old(reg.names), fileName, data, msgbreak) ==>
        reg.names == (if fileName in old(reg.names) then old(reg.names) else old(reg.names)[fileName := Word("False")]) &&
        reg.printed == old(reg.printed)
      ensures AllTruthy(old(reg.names)) ==> AllTruthy(reg.names) && reg.printed == old(reg.printed)
    {
      if fileName !in reg.names {
        reg.names := reg.names[fileName := Word("False")];
      }
      this.fileName := fileName;
      path := dir + "/" + fileName;
      var text := if existing.Some? then existing.value else "";
      data := text;
      stored := text;
      if Contains(text, msgbreak) && !LatchTruthy(reg.names[fileName]) {
        reg.names := reg.names[fileName := Flag(true)];
        reg.printed := reg.printed + [fileName + " Needs Editing!"];
      }
      if AllTruthy(old(reg.names)) {
        NoticeNeverFires(old(reg.names), fileName, text, msgbreak);
      }
    }

    /** `item in data`: substring containment in the text read at construction. */
    predicate Has(item: string) {
      Contains(data, item)
    }

    /** `data.set` */
    function Set(): set<string> {
      StrippedLines(data)
    }

    /** `error(msg, md)`: three lines appended to the file, which is queued for the editor. */
    method Error(msg: string, mdName: string, msgbreak: string, ed: Editor)
      modifies this, ed
      ensures stored == old(stored) + ExclusionEntry(mdName, msg, msgbreak)
      ensures ed.dataFiles == old(ed.dataFiles) + {path} && ed.markdownFiles == old(ed.markdownFiles)
    {
      stored := stored + ExclusionEntry(mdName, msg, msgbreak);
      ed.dataFiles := ed.dataFiles + {path};
    }
  }
}
