/**
 * The validators of `book_builder/validate.py`.  Each validator decides,
 * from a Markdown file's lines or listings and the data files it consults,
 * which calls it makes: `error` on the Markdown file, `error` on its
 * exclusion file, or both, with the buffer the first returns handed to the
 * second.  `Apply` makes those calls in order; validators that only report
 * hand their reports to `MarkdownFile.ErrorEach`.
 */
module Validators {

  import opened Results
  import opened Text
  import opened Numerals
  import opened Slices
  import opened Validate
  import BookUtil

  /** `config.code_width` */
  const CodeWidth := 56

  /** `config.language_name` */
  const LanguageName := "kotlin"

  // ---------------------------------------------------------------------------
  // Flattening: one list of calls out of a loop over items
  // ---------------------------------------------------------------------------

  /** The calls for each item, item after item. */
  function Flatten<T, U>(xs: seq<T>, f: T -> seq<U>): seq<U> {
    if xs == [] then [] else Flatten(xs[..|xs| - 1], f) + f(xs[|xs| - 1])
  }

  /** A call is made exactly when some item makes it. */
  lemma {:induction false} FlattenMember<T, U>(xs: seq<T>, f: T -> seq<U>, u: U)
    ensures u in Flatten(xs, f) <==> exists i :: 0 <= i < |xs| && u in f(xs[i])
  {
    if xs != [] {
      var p := xs[..|xs| - 1];
      FlattenMember(p, f, u);
      assert forall i :: 0 <= i < |p| ==> p[i] == xs[i];
    }
  }

  /** No item makes a call, so the validator makes none. */
  lemma FlattenEmpty<T, U>(xs: seq<T>, f: T -> seq<U>)
    requires forall i :: 0 <= i < |xs| ==> f(xs[i]) == []
    ensures Flatten(xs, f) == []
  {
    if Flatten(xs, f) != [] {
      FlattenMember(xs, f, Flatten(xs, f)[0]);
    }
  }

  /** The same with a context every item's calls depend on, such as the text of an exclusion file. */
  function FlattenWith<T, C, U>(xs: seq<T>, c: C, f: (T, C) -> seq<U>): seq<U> {
    if xs == [] then [] else FlattenWith(xs[..|xs| - 1], c, f) + f(xs[|xs| - 1], c)
  }

  lemma {:induction false} FlattenWithMember<T, C, U>(xs: seq<T>, c: C, f: (T, C) -> seq<U>, u: U)
    ensures u in FlattenWith(xs, c, f) <==> exists i :: 0 <= i < |xs| && u in f(xs[i], c)
  {
    if xs != [] {
      var p := xs[..|xs| - 1];
      FlattenWithMember(p, c, f, u);
      assert forall i :: 0 <= i < |p| ==> p[i] == xs[i];
    }
  }

  lemma FlattenWithEmpty<T, C, U>(xs: seq<T>, c: C, f: (T, C) -> seq<U>)
    requires forall i :: 0 <= i < |xs| ==> f(xs[i], c) == []
    ensures FlattenWith(xs, c, f) == []
  {
    if FlattenWith(xs, c, f) != [] {
      FlattenWithMember(xs, c, f, FlattenWith(xs, c, f)[0]);
    }
  }

  // ---------------------------------------------------------------------------
  // Calls on a Markdown file and its exclusion file
  // ---------------------------------------------------------------------------

  /** One call a validator makes. */
  datatype Effect =
    | Flag(r: Report)          // md.error(msg, line_number)
    | Exclude(msg: string)     // exclude.error(msg, md)
    | FlagExclude(r: Report)   // exclude.error(md.error(msg, line_number), md)

  /** The Markdown file's error state and the exclusion file's contents after a list of calls. */
  function Run(b: Buffer, stored: string, name: string, msgbreak: string, es: seq<Effect>): (Buffer, string) {
    if es == [] then (b, stored)
    else
      var (b0, s0) := Run(b, stored, name, msgbreak, es[..|es| - 1]);
      match es[|es| - 1]
      case Flag(r) => (Logged(b0, name, r), s0)
      case Exclude(m) => (b0, s0 + ExclusionEntry(name, m, msgbreak))
      case FlagExclude(r) =>
        var b1 := Logged(b0, name, r);
        (b1, s0 + ExclusionEntry(name, b1.errMsg, msgbreak))
  }

  /** Whether any call writes to the exclusion file. */
  predicate Excludes(es: seq<Effect>) {
    es != [] && (Excludes(es[..|es| - 1]) || !es[|es| - 1].Flag?)
  }

  /** The calls a validator makes, made in order. */
  method Apply(md: MarkdownFile, exclude: Data, ed: Editor, msgbreak: string, es: seq<Effect>)
    modifies md, exclude, ed
    ensures (md.State(), exclude.stored) == Run(old(md.State()), old(exclude.stored), md.name, msgbreak, es)
    ensures ed.dataFiles == old(ed.dataFiles) + (if Excludes(es) then {exclude.path} else {})
    ensures ed.markdownFiles == old(ed.markdownFiles)
  {
    var i := 0;
    while i < |es|
      invariant i <= |es|
      invariant (md.State(), exclude.stored) == Run(old(md.State()), old(exclude.stored), md.name, msgbreak, es[..i])
      invariant ed.dataFiles == old(ed.dataFiles) + (if Excludes(es[..i]) then {exclude.path} else {})
      invariant ed.markdownFiles == old(ed.markdownFiles)
    {
      assert es[..i + 1][..i] == es[..i];
      match es[i] {
        case Flag(r) =>
          var _ := md.Error(r.msg, r.line);
        case Exclude(m) =>
          exclude.Error(m, md.name, msgbreak, ed);
        case FlagExclude(r) =>
          var buffer := md.Error(r.msg, r.line);
          exclude.Error(buffer, md.name, msgbreak, ed);
      }
      i := i + 1;
    }
    assert es[..|es|] == es;
  }

  /** The reports among the calls: what reaches the Markdown file. */
  function Reports(es: seq<Effect>): seq<Report> {
    if es == [] then []
    else Reports(es[..|es| - 1]) + (if es[|es| - 1].Exclude? then [] else [es[|es| - 1].r])
  }

  /** On the Markdown file's side a list of calls is its reports, logged in order. */
  lemma {:induction false} RunBuffer(b: Buffer, stored: string, name: string, msgbreak: string, es: seq<Effect>)
    ensures Run(b, stored, name, msgbreak, es).0 == LogAll(b, name, Reports(es))
  {
    if es != [] {
      var p := es[..|es| - 1];
      RunBuffer(b, stored, name, msgbreak, p);
      var rs := Reports(es);
      if !es[|es| - 1].Exclude? {
        assert rs == Reports(p) + [es[|es| - 1].r];
        assert rs[..|rs| - 1] == Reports(p) && rs[|rs| - 1] == es[|es| - 1].r;
      } else {
        assert rs == Reports(p);
      }
    }
  }

  /** An entry holds its message. */
  lemma EntryContains(name: string, m: string, msgbreak: string)
    ensures Contains(ExclusionEntry(name, m, msgbreak), m)
  {
    var e := ExclusionEntry(name, m, msgbreak);
    var k := |name| + 6;
    assert e[k..k + |m|] == m;
    ContainsAt(e, m, k);
  }

  /** The logged buffer holds the message just logged. */
  lemma LoggedContains(b: Buffer, name: string, r: Report)
    ensures Contains(Logged(b, name, r).errMsg, r.msg)
  {
    var e := Logged(b, name, r).errMsg;
    var k := |e| - 1 - |r.msg|;
    assert e[k..k + |r.msg|] == r.msg;
    ContainsAt(e, r.msg, k);
  }

  /**
   * The exclusion file only grows, and afterwards it holds every message
   * excluded, and the message of every report whose buffer was excluded.
   */
  lemma {:induction false} RunRecords(b: Buffer, stored: string, name: string, msgbreak: string, es: seq<Effect>)
    ensures stored <= Run(b, stored, name, msgbreak, es).1
    ensures forall i :: 0 <= i < |es| && es[i].Exclude? ==> Contains(Run(b, stored, name, msgbreak, es).1, es[i].msg)
    ensures forall i :: 0 <= i < |es| && es[i].FlagExclude? ==> Contains(Run(b, stored, name, msgbreak, es).1, es[i].r.msg)
  {
    if es != [] {
      var p := es[..|es| - 1];
      RunRecords(b, stored, name, msgbreak, p);
      var (b0, s0) := Run(b, stored, name, msgbreak, p);
      var s := Run(b, stored, name, msgbreak, es).1;
      var x := s[|s0|..];
      assert s == s0 + x;
      forall i | 0 <= i < |es| && (es[i].Exclude? || es[i].FlagExclude?)
        ensures Contains(s, if es[i].Exclude? then es[i].msg else es[i].r.msg)
      {
        var m := if es[i].Exclude? then es[i].msg else es[i].r.msg;
        if i < |p| {
          assert p[i] == es[i];
          ContainsConcat(s0, x, m);
        } else if es[i].Exclude? {
          EntryContains(name, m, msgbreak);
          ContainsConcat(s0, x, m);
        } else {
          var b1 := Logged(b0, name, es[i].r);
          LoggedContains(b0, name, es[i].r);
          EntryContains(name, b1.errMsg, msgbreak);
          ContainsTrans(x, b1.errMsg, m);
          ContainsConcat(s0, x, m);
        }
      }
    }
  }

  /** What a prefix of the file holds, the file holds. */
  lemma ContainsExtended(s: string, t: string, m: string)
    requires s <= t && Contains(s, m)
    ensures Contains(t, m)
  {
    assert t == s + t[|s|..];
    ContainsConcat(s, t[|s|..], m);
  }

  // ---------------------------------------------------------------------------
  // NoTabs
  // ---------------------------------------------------------------------------

  /** `NoTabs` over the first `k` lines: "Tab found!" at each line holding a tab. */
  function NoTabs(lines: seq<string>, k: nat): (rs: seq<Report>)
    requires k <= |lines|
    ensures forall r :: r in rs <==> exists n :: 0 <= n < k && '\t' in lines[n] && r == Report("Tab found!", Some(n))
    ensures |rs| <= k
    ensures forall i, j :: 0 <= i < j < |rs| ==> rs[i] != rs[j]
  {
    if k == 0 then []
    else
      var prev := NoTabs(lines, k - 1);
      assert Report("Tab found!", Some(k - 1)) !in prev;
      prev + (if '\t' in lines[k - 1] then [Report("Tab found!", Some(k - 1))] else [])
  }

  // ---------------------------------------------------------------------------
  // TagNoGap
  // ---------------------------------------------------------------------------

  function TagReports(l: CodeListing): seq<Report> {
    if ' ' in l.marker then [Report("Contains spaces between ``` and " + LanguageName, Some(l.mdStartingLine - 1))] else []
  }

  /** `TagNoGap`: one report for each listing whose marker holds a space, at the line before the slug. */
  function TagNoGap(listings: seq<CodeListing>): seq<Report> {
    Flatten(listings, TagReports)
  }

  lemma TagNoGapSpec(listings: seq<CodeListing>, r: Report)
    ensures r in TagNoGap(listings) <==>
      exists i :: 0 <= i < |listings| && ' ' in listings[i].marker &&
        r == Report("Contains spaces between ``` and " + LanguageName, Some(listings[i].mdStartingLine - 1))
  {
    FlattenMember(listings, TagReports, r);
  }

  // ---------------------------------------------------------------------------
  // FilenamesAndTitles
  // ---------------------------------------------------------------------------

  /**
   * `FilenamesAndTitles`: front matter is skipped; otherwise the file name
   * after its four-character prefix must be the filename the title makes,
   * and the title must not say " and ".
   */
  function FilenamesAndTitles(name: string, title: string): (rs: seq<Report>)
    ensures Contains(name, "Front.md") ==> rs == []
    ensures !Contains(name, "Front.md") ==>
      (Report("Atom Title: " + title, None) in rs <==> BookUtil.CreateMarkdownFilename(title) != Drop(name, 4)) &&
      (Report("'and' in title should be '&': " + title, None) in rs <==> Contains(title, " and "))
    ensures |rs| <= 2
  {
    var atom := Report("Atom Title: " + title, None);
    var amp := Report("'and' in title should be '&': " + title, None);
    assert atom.msg[0] == 'A' && amp.msg[0] == '\'';
    if Contains(name, "Front.md") then []
    else
      (if BookUtil.CreateMarkdownFilename(title) != Drop(name, 4) then [atom] else []) +
      (if Contains(title, " and ") then [amp] else [])
  }

  /** A file named the way the book numbers its atoms passes, unless its title says " and ". */
  lemma NumberedFilePasses(n: nat, title: string)
    requires n < 1000 && !Contains(title, " and ")
    requires !Contains(BookUtil.CreateNumberedMarkdownFilename(title, n), "Front.md")
    ensures FilenamesAndTitles(BookUtil.CreateNumberedMarkdownFilename(title, n), title) == []
  {
    var name := BookUtil.CreateNumberedMarkdownFilename(title, n);
    ZeroPadWidth(n, 3);
    assert Drop(name, 4) == BookUtil.CreateMarkdownFilename(title);
  }

  // ---------------------------------------------------------------------------
  // CodeListingLineWidths
  // ---------------------------------------------------------------------------

  function WidthReport(l: CodeListing, n: nat): Report {
    Report("Line " + NatToString(n) + " too wide in " + l.slug, Some(l.mdStartingLine + n))
  }

  /** The lines among the first `k` of a listing that are too wide once trailing whitespace goes. */
  function WideLines(l: CodeListing, k: nat): (rs: seq<Report>)
    requires k <= |l.lines|
    ensures forall r :: r in rs <==> exists n :: 0 <= n < k && |RStrip(l.lines[n])| > CodeWidth && r == WidthReport(l, n)
  {
    if k == 0 then []
    else WideLines(l, k - 1) + (if |RStrip(l.lines[k - 1])| > CodeWidth then [WidthReport(l, k - 1)] else [])
  }

  function WidthReports(l: CodeListing): seq<Report> {
    if StartsWith(l.slug, "// ") then WideLines(l, |l.lines|) else []
  }

  /** `CodeListingLineWidths` */
  function CodeListingLineWidths(listings: seq<CodeListing>): seq<Report> {
    Flatten(listings, WidthReports)
  }

  /** A report for every over-wide line of a listing that opens with `"// "`, and for nothing else. */
  lemma CodeListingLineWidthsSpec(listings: seq<CodeListing>, r: Report)
    ensures r in CodeListingLineWidths(listings) <==>
      exists i, n :: 0 <= i < |listings| && StartsWith(listings[i].slug, "// ") &&
        0 <= n < |listings[i].lines| && |RStrip(listings[i].lines[n])| > CodeWidth && r == WidthReport(listings[i], n)
  {
    FlattenMember(listings, WidthReports, r);
  }

  // ---------------------------------------------------------------------------
  // HangingHyphens
  // ---------------------------------------------------------------------------

  /** `[^-]+---$` matching a right-stripped line: some text without hyphens, then three hyphens. */
  predicate HangingEmdash(s: string) {
    |s| >= 4 && EndsWith(s, "---") && '-' !in s[..|s| - 3]
  }

  /** `[^-]+-$`: some text without hyphens, then one hyphen. */
  predicate HangingHyphen(s: string) {
    |s| >= 2 && s[|s| - 1] == '-' && '-' !in s[..|s| - 1]
  }

  /** A line never hangs both ways: the dash before the last one is a hyphen the short pattern forbids. */
  lemma HangingExclusive(s: string)
    ensures !(HangingEmdash(s) && HangingHyphen(s))
  {
    if HangingEmdash(s) {
      assert s[..|s| - 1][|s| - 2] == s[|s| - 2] == '-';
    }
  }

  function HangingReports(line: string): seq<Report> {
    var s := RStrip(line);
    (if HangingEmdash(s) then [Report("Hanging emdash: " + s, None)] else []) +
    (if HangingHyphen(s) then [Report("Hanging hyphen: " + s, None)] else [])
  }

  /** `HangingHyphens`: a report for each line that hangs, without a line number. */
  function HangingHyphens(lines: seq<string>): seq<Report> {
    Flatten(lines, HangingReports)
  }

  lemma HangingHyphensSpec(lines: seq<string>)
    ensures |HangingHyphens(lines)| <= |lines|
    ensures forall n :: 0 <= n < |lines| ==> |HangingReports(lines[n])| <= 1
    ensures forall r :: r in HangingHyphens(lines) ==> r.line == None
    ensures forall r :: r in HangingHyphens(lines) ==>
      exists n :: 0 <= n < |lines| &&
        ((HangingEmdash(RStrip(lines[n])) && r == Report("Hanging emdash: " + RStrip(lines[n]), None)) ||
         (HangingHyphen(RStrip(lines[n])) && r == Report("Hanging hyphen: " + RStrip(lines[n]), None)))
    ensures forall n :: 0 <= n < |lines| && HangingEmdash(RStrip(lines[n])) ==>
      Report("Hanging emdash: " + RStrip(lines[n]), None) in HangingHyphens(lines)
    ensures forall n :: 0 <= n < |lines| && HangingHyphen(RStrip(lines[n])) ==>
      Report("Hanging hyphen: " + RStrip(lines[n]), None) in HangingHyphens(lines)
  {
    HangingCount(lines);
    forall n | 0 <= n < |lines| ensures |HangingReports(lines[n])| <= 1 {
      HangingExclusive(RStrip(lines[n]));
    }
    forall r | r in HangingHyphens(lines)
      ensures r.line == None
      ensures
        exists n :: 0 <= n < |lines| &&
          ((HangingEmdash(RStrip(lines[n])) && r == Report("Hanging emdash: " + RStrip(lines[n]), None)) ||
           (HangingHyphen(RStrip(lines[n])) && r == Report("Hanging hyphen: " + RStrip(lines[n]), None)))
    {
      FlattenMember(lines, HangingReports, r);
      var n :| 0 <= n < |lines| && r in HangingReports(lines[n]);
    }
    forall n | 0 <= n < |lines|
      ensures HangingEmdash(RStrip(lines[n])) ==> Report("Hanging emdash: " + RStrip(lines[n]), None) in HangingHyphens(lines)
      ensures HangingHyphen(RStrip(lines[n])) ==> Report("Hanging hyphen: " + RStrip(lines[n]), None) in HangingHyphens(lines)
    {
      var s := RStrip(lines[n]);
      FlattenMember(lines, HangingReports, Report("Hanging emdash: " + s, None));
      FlattenMember(lines, HangingReports, Report("Hanging hyphen: " + s, None));
    }
  }

  lemma {:induction false} HangingCount(lines: seq<string>)
    ensures |HangingHyphens(lines)| <= |lines|
  {
    if lines != [] {
      HangingCount(lines[..|lines| - 1]);
      HangingExclusive(RStrip(lines[|lines| - 1]));
    }
  }

  // ---------------------------------------------------------------------------
  // CheckBlankLines
  // ---------------------------------------------------------------------------

  predicate Blank(s: string) {
    Strip(s) == ""
  }

  /** A blank line is flagged when it is the last line or the next one is blank too. */
  predicate ExtraBlank(lines: seq<string>, n: nat)
    requires n < |lines|
  {
    Blank(lines[n]) && (n + 1 == |lines| || Blank(lines[n + 1]))
  }

  /** A fence line inside the file is flagged when neither neighbour is blank. */
  predicate CrowdedFence(lines: seq<string>, n: nat)
    requires n < |lines|
  {
    StartsWith(lines[n], "```") && 0 < n && n + 1 < |lines| && !Blank(lines[n - 1]) && !Blank(lines[n + 1])
  }

  /** The first pass over the first `k` lines. */
  function ExtraBlanks(lines: seq<string>, k: nat): (rs: seq<Report>)
    requires k <= |lines|
    ensures forall n :: 0 <= n < k ==> (Report("More than one blank line", Some(n)) in rs <==> ExtraBlank(lines, n))
    ensures forall r :: r in rs ==> r.msg == "More than one blank line" && r.line.Some? && 0 <= r.line.value < k
  {
    if k == 0 then []
    else ExtraBlanks(lines, k - 1) + (if ExtraBlank(lines, k - 1) then [Report("More than one blank line", Some(k - 1))] else [])
  }

  /** The second pass over the first `k` lines. */
  function CrowdedFences(lines: seq<string>, k: nat): (rs: seq<Report>)
    requires k <= |lines|
    ensures forall n :: 0 <= n < k ==> (Report("Missing blank line before/after listing", Some(n)) in rs <==> CrowdedFence(lines, n))
    ensures forall r :: r in rs ==> r.msg == "Missing blank line before/after listing" && r.line.Some? && 0 <= r.line.value < k
  {
    if k == 0 then []
    else CrowdedFences(lines, k - 1) + (if CrowdedFence(lines, k - 1) then [Report("Missing blank line before/after listing", Some(k - 1))] else [])
  }

  /** `CheckBlankLines`: every extra blank line first, then every fence without a blank neighbour. */
  function CheckBlankLines(lines: seq<string>): seq<Report> {
    ExtraBlanks(lines, |lines|) + CrowdedFences(lines, |lines|)
  }

  /** The first pass reports exactly the extra blank lines, and nothing about fences. */
  lemma ExtraBlanksIff(lines: seq<string>, n: nat)
    requires n < |lines|
    ensures Report("More than one blank line", Some(n)) in ExtraBlanks(lines, |lines|) <==> ExtraBlank(lines, n)
    ensures Report("Missing blank line before/after listing", Some(n)) !in ExtraBlanks(lines, |lines|)
  {
    var other := Report("Missing blank line before/after listing", Some(n));
    forall r | r in ExtraBlanks(lines, |lines|) ensures r != other {
      assert |r.msg| == 24;
    }
  }

  /** The second pass reports exactly the crowded fences, and nothing about blank lines. */
  lemma CrowdedFencesIff(lines: seq<string>, n: nat)
    requires n < |lines|
    ensures Report("Missing blank line before/after listing", Some(n)) in CrowdedFences(lines, |lines|) <==> CrowdedFence(lines, n)
    ensures Report("More than one blank line", Some(n)) !in CrowdedFences(lines, |lines|)
  {
    var other := Report("More than one blank line", Some(n));
    forall r | r in CrowdedFences(lines, |lines|) ensures r != other {
      assert |r.msg| == 39;
    }
  }

  lemma CheckBlankLinesSpec(lines: seq<string>, n: nat)
    requires n < |lines|
    ensures Report("More than one blank line", Some(n)) in CheckBlankLines(lines) <==>
      Blank(lines[n]) && (n + 1 == |lines| || Blank(lines[n + 1]))
    ensures Report("Missing blank line before/after listing", Some(n)) in CheckBlankLines(lines) <==>
      StartsWith(lines[n], "```") && 0 < n < |lines| - 1 && !Blank(lines[n - 1]) && !Blank(lines[n + 1])
  {
    ExtraBlanksIff(lines, n);
    CrowdedFencesIff(lines, n);
  }

  // ---------------------------------------------------------------------------
  // ExampleSluglines
  // ---------------------------------------------------------------------------

  /**
   * One listing of `ExampleSluglines`: skipped unless it opens with the
   * comment start; reported when no space follows it; otherwise the text
   * after the first word (IndexError when there is none) must name a
   * directory, or be excluded already, or it is reported and its buffer
   * excluded.
   */
  function SluglineEffects(l: CodeListing, startComment: string, excl: string): Result<seq<Effect>, string> {
    if !StartsWith(l.slug, startComment) then Ok([])
    else if !StartsWith(l.slug, startComment + " ") then
      Ok([Effect.Flag(Report("Bad first line (no space after beginning of comment):\n\t" + l.slug, None))])
    else
      match AfterFirstWord(l.slug)
      case None => Err("IndexError")
      case Some(slug) =>
        if !Contains(slug, "/") && !Contains(excl, slug) then
          Ok([FlagExclude(Report("Missing directory in:\n" + slug, None))])
        else Ok([])
  }

  /** `ExampleSluglines`: the calls made listing after listing, and the error that ends the loop early, if any. */
  function ExampleSluglines(listings: seq<CodeListing>, startComment: string, excl: string): (seq<Effect>, Option<string>) {
    if listings == [] then ([], None)
    else
      match SluglineEffects(listings[0], startComment, excl)
      case Err(e) => ([], Some(e))
      case Ok(es) =>
        var (rest, err) := ExampleSluglines(listings[1..], startComment, excl);
        (es + rest, err)
  }

  /**
   * The loop raises IndexError exactly when some listing opens with the
   * comment start and a space and has nothing after its first word.
   */
  lemma {:induction false} ExampleSluglinesRaises(listings: seq<CodeListing>, startComment: string, excl: string)
    ensures ExampleSluglines(listings, startComment, excl).1.Some? <==>
      exists i :: 0 <= i < |listings| && StartsWith(listings[i].slug, startComment + " ") &&
        StartsWith(listings[i].slug, startComment) && AfterFirstWord(listings[i].slug).None?
    ensures ExampleSluglines(listings, startComment, excl).1.Some? ==>
      ExampleSluglines(listings, startComment, excl).1 == Some("IndexError")
  {
    if listings != [] {
      ExampleSluglinesRaises(listings[1..], startComment, excl);
      assert forall i :: 1 <= i < |listings| ==> listings[1..][i - 1] == listings[i];
    }
  }

  lemma MissingHoldsSlug(slug: string)
    ensures Contains("Missing directory in:\n" + slug, slug)
  {
    var m := "Missing directory in:\n" + slug;
    assert m[22..22 + |slug|] == slug;
    ContainsAt(m, slug, 22);
  }

  lemma {:induction false} ExampleSluglinesAgain(listings: seq<CodeListing>, startComment: string, excl: string, s2: string)
    requires forall x :: Contains(excl, x) ==> Contains(s2, x)
    requires forall e :: e in ExampleSluglines(listings, startComment, excl).0 && e.FlagExclude? ==> Contains(s2, e.r.msg)
    ensures forall e :: e in ExampleSluglines(listings, startComment, s2).0 ==> e.Flag?
  {
    if listings != [] {
      var l := listings[0];
      match SluglineEffects(l, startComment, excl)
      case Err(_) =>
      case Ok(es) =>
        var rest := ExampleSluglines(listings[1..], startComment, excl).0;
        assert ExampleSluglines(listings, startComment, excl).0 == es + rest;
        ExampleSluglinesAgain(listings[1..], startComment, excl, s2);
        if StartsWith(l.slug, startComment + " ") && StartsWith(l.slug, startComment) && AfterFirstWord(l.slug).Some? {
          var slug := AfterFirstWord(l.slug).value;
          if !Contains(slug, "/") && !Contains(excl, slug) {
            assert FlagExclude(Report("Missing directory in:\n" + slug, None)) in es;
            MissingHoldsSlug(slug);
            ContainsTrans(s2, "Missing directory in:\n" + slug, slug);
          }
        }
    }
  }

  /**
   * Once the calls are made, running the validator again on the updated
   * exclusion file excludes nothing more: every slug it excluded is now
   * found in the file.  Only the missing-space reports repeat.
   */
  lemma ExampleSluglinesOnce(listings: seq<CodeListing>, startComment: string, excl: string,
                             b: Buffer, stored: string, name: string, msgbreak: string)
    requires excl <= stored
    ensures var s2 := Run(b, stored, name, msgbreak, ExampleSluglines(listings, startComment, excl).0).1;
      forall e :: e in ExampleSluglines(listings, startComment, s2).0 ==> e.Flag?
  {
    var es := ExampleSluglines(listings, startComment, excl).0;
    var s2 := Run(b, stored, name, msgbreak, es).1;
    RunRecords(b, stored, name, msgbreak, es);
    forall x | Contains(excl, x) ensures Contains(s2, x) {
      ContainsExtended(excl, s2, x);
    }
    forall e | e in es && e.FlagExclude? ensures Contains(s2, e.r.msg) {
      var i :| 0 <= i < |es| && es[i] == e;
    }
    ExampleSluglinesAgain(listings, startComment, excl, s2);
  }

  // ---------------------------------------------------------------------------
  // CompleteExamples
  // ---------------------------------------------------------------------------

  predicate FunLine(line: string) {
    StartsWith(Strip(line), "fun ")
  }

  function HasFun(lines: seq<string>): (b: bool)
    ensures b <==> exists k :: 0 <= k < |lines| && FunLine(lines[k])
  {
    if lines == [] then false
    else FunLine(lines[|lines| - 1]) || HasFun(lines[..|lines| - 1])
  }

  /** A listing without a proper slugline, not excluded, that holds a `fun ` line. */
  predicate Candidate(l: CodeListing, excl: string) {
    !l.properSlugline && !Contains(excl, l.slug) && HasFun(l.lines)
  }

  /** `examples_without_sluglines`: the first candidate listing, or None. */
  function WithoutSlugline(listings: seq<CodeListing>, excl: string): (r: Option<nat>)
    ensures r.Some? ==> (r.value < |listings| && Candidate(listings[r.value], excl) &&
      forall k :: 0 <= k < r.value ==> !Candidate(listings[k], excl))
    ensures r.None? ==> forall k :: 0 <= k < |listings| ==> !Candidate(listings[k], excl)
  {
    if listings == [] then None
    else if Candidate(listings[0], excl) then Some(0)
    else
      match WithoutSlugline(listings[1..], excl)
      case None => None
      case Some(k) => Some(k + 1)
  }

  function CompleteReport(l: CodeListing): Report {
    Report("Contains compileable example(s) without a slugline:\n" + l.slug, Some(l.mdStartingLine))
  }

  /** `CompleteExamples`: the first candidate is reported and the buffer excluded. */
  function CompleteExamples(listings: seq<CodeListing>, excl: string): seq<Effect> {
    match WithoutSlugline(listings, excl)
    case None => []
    case Some(i) => [FlagExclude(CompleteReport(listings[i]))]
  }

  lemma CompleteHoldsSlug(slug: string)
    ensures Contains("Contains compileable example(s) without a slugline:\n" + slug, slug)
  {
    var m := "Contains compileable example(s) without a slugline:\n" + slug;
    var k := |m| - |slug|;
    assert m[k..k + |slug|] == slug;
    ContainsAt(m, slug, k);
  }

  /**
   * One listing a run: after the calls, the next run passes the reported
   * listing and every one before it, so it reports a later one or none.
   */
  lemma CompleteExamplesProgress(listings: seq<CodeListing>, excl: string,
                                 b: Buffer, stored: string, name: string, msgbreak: string)
    requires excl <= stored && WithoutSlugline(listings, excl).Some?
    ensures var s2 := Run(b, stored, name, msgbreak, CompleteExamples(listings, excl)).1;
      forall k :: 0 <= k <= WithoutSlugline(listings, excl).value ==> !Candidate(listings[k], s2)
  {
    var i := WithoutSlugline(listings, excl).value;
    var es := CompleteExamples(listings, excl);
    var s2 := Run(b, stored, name, msgbreak, es).1;
    RunRecords(b, stored, name, msgbreak, es);
    assert es[0] == FlagExclude(CompleteReport(listings[i]));
    CompleteHoldsSlug(listings[i].slug);
    ContainsTrans(s2, CompleteReport(listings[i]).msg, listings[i].slug);
    forall k | 0 <= k < i && Contains(excl, listings[k].slug) ensures Contains(s2, listings[k].slug) {
      ContainsExtended(excl, s2, listings[k].slug);
    }
  }

  // ---------------------------------------------------------------------------
  // PrintlnOutput
  // ---------------------------------------------------------------------------

  /** `PrintlnOutput.OK` */
  const OutputMarkers: seq<string> := ["/* Output:", "/* Sample output:", "/* Input/Output:"]

  /** Code that prints and shows none of the output markers. */
  predicate NeedsOutput(code: string) {
    Contains(code, "println") && forall i :: 0 <= i < |OutputMarkers| ==> !Contains(code, OutputMarkers[i])
  }

  /** One listing: reported at its slug line and its slug excluded, unless excluded already. */
  function PrintlnEffects(l: CodeListing, excl: string): seq<Effect> {
    if NeedsOutput(l.code) && !Contains(excl, l.slug) then
      [Effect.Flag(Report("println without /* Output:\n" + l.slug + "\n", Some(l.mdStartingLine))), Exclude(l.slug)]
    else []
  }

  /** `PrintlnOutput` */
  function PrintlnOutput(listings: seq<CodeListing>, excl: string): seq<Effect> {
    FlattenWith(listings, excl, PrintlnEffects)
  }

  /** Once the calls are made, running the validator again on the updated exclusion file reports nothing. */
  lemma PrintlnOutputOnce(listings: seq<CodeListing>, excl: string, b: Buffer, stored: string, name: string, msgbreak: string)
    requires excl <= stored
    ensures PrintlnOutput(listings, Run(b, stored, name, msgbreak, PrintlnOutput(listings, excl)).1) == []
  {
    var es := PrintlnOutput(listings, excl);
    var s2 := Run(b, stored, name, msgbreak, es).1;
    RunRecords(b, stored, name, msgbreak, es);
    forall i | 0 <= i < |listings| ensures PrintlnEffects(listings[i], s2) == [] {
      var l := listings[i];
      if NeedsOutput(l.code) && !Contains(excl, l.slug) {
        FlattenWithMember(listings, excl, PrintlnEffects, Exclude(l.slug));
        var j :| 0 <= j < |es| && es[j] == Exclude(l.slug);
      } else if Contains(excl, l.slug) {
        ContainsExtended(excl, s2, l.slug);
      }
    }
    FlattenWithEmpty(listings, s2, PrintlnEffects);
  }

  // ---------------------------------------------------------------------------
  // CapitalizedComments
  // ---------------------------------------------------------------------------

  /** `line.split("//")[1].strip() + " "`: the stripped text between the first `//` and the next. */
  function CommentText(line: string): string
    requires Contains(line, "//")
  {
    SplitSingle(line, "//");
    Strip(Split(line, "//")[1]) + " "
  }

  /** The first index from `n` on whose line holds no `//` (or the end). */
  function RunEnd(lines: seq<string>, n: nat): (m: nat)
    ensures n <= m && (n <= |lines| ==> m <= |lines|)
    ensures forall k :: n <= k < m ==> k < |lines| && Contains(lines[k], "//")
    ensures m < |lines| ==> !Contains(lines[m], "//")
    decreases |lines| - n
  {
    if n < |lines| && Contains(lines[n], "//") then RunEnd(lines, n + 1) else n
  }

  /** The comment texts of lines `n` up to `m`, in order. */
  function RunText(lines: seq<string>, n: nat, m: nat): string
    requires n <= m <= |lines|
    requires forall k :: n <= k < m ==> Contains(lines[k], "//")
    decreases m - n
  {
    if m == n then "" else RunText(lines, n, m - 1) + CommentText(lines[m - 1])
  }

  /**
   * `parse_comment_block(n, lines)`: collects the comment texts of the
   * lines from `n` on while they hold `//`, and returns where it stopped.
   */
  method ParseCommentBlock(n0: nat, lines: seq<string>) returns (n: nat, block: string)
    ensures n == RunEnd(lines, n0)
    ensures n0 <= |lines| ==> block == RunText(lines, n0, n)
    ensures n0 > |lines| ==> block == ""
  {
    n, block := n0, "";
    if n0 > |lines| {
      return;
    }
    while n < |lines| && Contains(lines[n], "//")
      invariant n0 <= n <= |lines|
      invariant RunEnd(lines, n) == RunEnd(lines, n0)
      invariant forall k :: n0 <= k < n ==> Contains(lines[k], "//")
      invariant block == RunText(lines, n0, n)
      decreases |lines| - n
    {
      RunTextStep(lines, n0, n);
      block := block + CommentText(lines[n]);
      n := n + 1;
    }
  }

  lemma RunTextStep(lines: seq<string>, n: nat, m: nat)
    requires n <= m < |lines|
    requires forall k :: n <= k <= m ==> Contains(lines[k], "//")
    ensures RunText(lines, n, m + 1) == RunText(lines, n, m) + CommentText(lines[m])
  {
  }

  /** The comment blocks of lines `n` on: a block per run of `//` lines, other lines skipped one by one. */
  function Blocks(lines: seq<string>, n: nat): seq<string>
    decreases |lines| - n
  {
    if n >= |lines| then []
    else if Contains(lines[n], "//") then
      var m := RunEnd(lines, n);
      [RunText(lines, n, m)] + Blocks(lines, m)
    else Blocks(lines, n + 1)
  }

  /** `parse_blocks_of_comments(listing)`: the blocks of the lines after the slug line. */
  method ParseBlocksOfComments(l: CodeListing) returns (result: seq<string>)
    ensures result == Blocks(Drop(l.lines, 1), 0)
  {
    var lines := Drop(l.lines, 1);
    result := [];
    var n := 0;
    while n < |lines|
      invariant n <= |lines|
      invariant result + Blocks(lines, n) == Blocks(lines, 0)
      decreases |lines| - n
    {
      if Contains(lines[n], "//") {
        var m, block := ParseCommentBlock(n, lines);
        assert Blocks(lines, n) == [block] + Blocks(lines, m);
        assert result + Blocks(lines, n) == (result + [block]) + Blocks(lines, m);
        result, n := result + [block], m;
      } else {
        n := n + 1;
      }
    }
  }

  /** Lines `i` up to `j` all hold `//`, and the lines on either side (if any) do not. */
  predicate MaximalRun(lines: seq<string>, i: nat, j: nat) {
    i < j <= |lines| &&
    (i == 0 || !Contains(lines[i - 1], "//")) &&
    (j == |lines| || !Contains(lines[j], "//")) &&
    forall k :: i <= k < j ==> Contains(lines[k], "//")
  }

  /** Every block is the text of a maximal run of `//` lines. */
  lemma {:induction false} BlocksAreRuns(lines: seq<string>, n: nat)
    requires n <= |lines|
    requires n == 0 || n == |lines| || !Contains(lines[n - 1], "//") || !Contains(lines[n], "//")
    ensures forall s :: s in Blocks(lines, n) ==> exists i, j :: n <= i && MaximalRun(lines, i, j) && s == RunText(lines, i, j)
    decreases |lines| - n
  {
    if n < |lines| {
      if Contains(lines[n], "//") {
        var m := RunEnd(lines, n);
        assert Blocks(lines, n) == [RunText(lines, n, m)] + Blocks(lines, m);
        BlocksAreRuns(lines, m);
        assert MaximalRun(lines, n, m);
      } else {
        assert Blocks(lines, n) == Blocks(lines, n + 1);
        BlocksAreRuns(lines, n + 1);
      }
    }
  }

  /** The text of every maximal run of `//` lines is a block. */
  lemma {:induction false} RunsAreBlocks(lines: seq<string>, n: nat)
    requires n <= |lines|
    ensures forall i, j :: n <= i && MaximalRun(lines, i, j) ==> RunText(lines, i, j) in Blocks(lines, n)
    decreases |lines| - n
  {
    if n < |lines| {
      if Contains(lines[n], "//") {
        var m := RunEnd(lines, n);
        assert Blocks(lines, n) == [RunText(lines, n, m)] + Blocks(lines, m);
        RunsAreBlocks(lines, m);
        forall i, j | n <= i && MaximalRun(lines, i, j) ensures RunText(lines, i, j) in Blocks(lines, n) {
          if i == n {
            assert !(j < m) && !(m < j);
          } else {
            assert !Contains(lines[i - 1], "//");
            assert m <= i;
          }
        }
      } else {
        assert Blocks(lines, n) == Blocks(lines, n + 1);
        RunsAreBlocks(lines, n + 1);
        forall i, j | n <= i && MaximalRun(lines, i, j) ensures n + 1 <= i {
          assert Contains(lines[i], "//");
        }
      }
    }
  }

  /** A block whose stripped text starts with a lower-case letter. */
  predicate Uncapped(block: string) {
    Strip(block) != [] && IsLower(Strip(block)[0])
  }

  /** The first uncapitalized block, as written: a block that strips to nothing raises IndexError. */
  function FirstUncappedAsWritten(blocks: seq<string>): Result<Option<string>, string> {
    if blocks == [] then Ok(None)
    else
      var s := Strip(blocks[0]);
      if s == [] then Err("IndexError")
      else if IsLower(s[0]) then Ok(Some(s))
      else FirstUncappedAsWritten(blocks[1..])
  }

  /** `find_uncapitalized_comment` as written, over the listings in order. */
  function FindUncapitalizedAsWritten(listings: seq<CodeListing>): Result<Option<string>, string> {
    if listings == [] then Ok(None)
    else
      match FirstUncappedAsWritten(ListingBlocks(listings[0]))
      case Err(e) => Err(e)
      case Ok(Some(s)) => Ok(Some(s))
      case Ok(None) => FindUncapitalizedAsWritten(listings[1..])
  }

  /** A listing whose only comment is an empty `//` line raises IndexError. */
  lemma EmptyCommentRaises(l: CodeListing)
    requires l.lines == ["// a/B.kt", "//"]
    ensures FindUncapitalizedAsWritten([l]) == Err("IndexError")
  {
    var lines := Drop(l.lines, 1);
    assert lines == ["//"];
    assert OccursAt("//", "//", 0);
    assert Find("//", "//") == 0;
    assert Split("//", "//") == ["", ""];
    assert CommentText("//") == " ";
    assert RunEnd(lines, 0) == 1;
    assert RunText(lines, 0, 1) == " ";
    assert Blocks(lines, 0) == [" "];
    assert Strip(" ") == "";
  }

  /** The first uncapitalized block; blocks that strip to nothing are passed over. */
  function FirstUncapped(blocks: seq<string>): (r: Option<string>)
    ensures r.None? <==> forall k :: 0 <= k < |blocks| ==> !Uncapped(blocks[k])
    ensures r.Some? ==> exists k :: (0 <= k < |blocks| && Uncapped(blocks[k]) && r.value == Strip(blocks[k]) &&
      forall j :: 0 <= j < k ==> !Uncapped(blocks[j]))
  {
    if blocks == [] then None
    else if Uncapped(blocks[0]) then Some(Strip(blocks[0]))
    else
      var r := FirstUncapped(blocks[1..]);
      assert forall k :: 1 <= k < |blocks| ==> blocks[1..][k - 1] == blocks[k];
      r
  }

  /** The blocks of a listing: those of the lines after its slug line. */
  function ListingBlocks(l: CodeListing): seq<string> {
    Blocks(Drop(l.lines, 1), 0)
  }

  /** `find_uncapitalized_comment`, with empty blocks passed over. */
  function FindUncapitalized(listings: seq<CodeListing>): (r: Option<string>)
    ensures r.None? <==> forall i, k :: 0 <= i < |listings| && 0 <= k < |ListingBlocks(listings[i])| ==> !Uncapped(ListingBlocks(listings[i])[k])
    ensures r.Some? ==> r.value != [] && IsLower(r.value[0])
  {
    if listings == [] then None
    else
      match FirstUncapped(ListingBlocks(listings[0]))
      case Some(s) => Some(s)
      case None =>
        var r := FindUncapitalized(listings[1..]);
        assert forall i :: 1 <= i < |listings| ==> listings[1..][i - 1] == listings[i];
        r
  }

  /** The first item's result that is present, trying the items in order. */
  function FirstSome<T, U>(xs: seq<T>, f: T -> Option<U>): Option<U> {
    if xs == [] then None
    else if f(xs[0]).Some? then f(xs[0])
    else FirstSome(xs[1..], f)
  }

  /** A result comes from some item, and every item before that one gives none. */
  lemma {:induction false} FirstSomeFirst<T, U>(xs: seq<T>, f: T -> Option<U>)
    ensures FirstSome(xs, f).Some? ==>
      exists i :: 0 <= i < |xs| && f(xs[i]) == FirstSome(xs, f) && forall j :: 0 <= j < i ==> f(xs[j]).None?
  {
    if xs != [] && f(xs[0]).None? {
      FirstSomeFirst(xs[1..], f);
      if FirstSome(xs, f).Some? {
        var i :| 0 <= i < |xs[1..]| && f(xs[1..][i]) == FirstSome(xs, f) &&
          forall j :: 0 <= j < i ==> f(xs[1..][j]).None?;
        assert xs[1..][i] == xs[i + 1];
        forall j | 0 <= j < i + 1 ensures f(xs[j]).None? {
          if j > 0 {
            assert xs[1..][j - 1] == xs[j];
          }
        }
      }
    }
  }

  /** The listing's first uncapitalized comment. */
  function ListingUncapped(l: CodeListing): Option<string> {
    FirstUncapped(ListingBlocks(l))
  }

  lemma {:induction false} FindIsFirstSome(listings: seq<CodeListing>)
    ensures FindUncapitalized(listings) == FirstSome(listings, ListingUncapped)
  {
    if listings != [] {
      FindIsFirstSome(listings[1..]);
    }
  }

  /**
   * The comment found is the first uncapitalized block of the first listing
   * that has one: every listing before it has none.
   */
  lemma FindUncapitalizedFirst(listings: seq<CodeListing>)
    ensures var r := FindUncapitalized(listings);
      r.Some? ==>
        exists i :: 0 <= i < |listings| && FirstUncapped(ListingBlocks(listings[i])) == r &&
          forall j :: 0 <= j < i ==> FirstUncapped(ListingBlocks(listings[j])).None?
  {
    FindIsFirstSome(listings);
    FirstSomeFirst(listings, ListingUncapped);
  }

  /**
   * The definition as written and the one used differ only where the one as
   * written raises: whenever it returns, it returns what the other does.
   */
  lemma {:induction false} UncappedAgrees(blocks: seq<string>)
    ensures FirstUncappedAsWritten(blocks).Ok? ==> FirstUncappedAsWritten(blocks) == Ok(FirstUncapped(blocks))
  {
    if blocks != [] && Strip(blocks[0]) != [] && !IsLower(Strip(blocks[0])[0]) {
      UncappedAgrees(blocks[1..]);
    }
  }

  /** The same over the listings of a file. */
  lemma {:induction false} FindAgrees(listings: seq<CodeListing>)
    ensures FindUncapitalizedAsWritten(listings).Ok? ==> FindUncapitalizedAsWritten(listings) == Ok(FindUncapitalized(listings))
  {
    if listings != [] {
      UncappedAgrees(ListingBlocks(listings[0]));
      FindAgrees(listings[1..]);
    }
  }

  /** `CapitalizedComments`: the first uncapitalized comment of the file, reported and excluded unless excluded already. */
  function CapitalizedComments(listings: seq<CodeListing>, excl: string): seq<Effect> {
    match FindUncapitalized(listings)
    case Some(u) =>
      if !Contains(excl, u) then [Effect.Flag(Report("Uncapitalized comment: " + u, None)), Exclude(u)] else []
    case None => []
  }

  /** `CapitalizedComments` as written: the IndexError of an empty comment block escapes. */
  function CapitalizedCommentsAsWritten(listings: seq<CodeListing>, excl: string): Result<seq<Effect>, string> {
    match FindUncapitalizedAsWritten(listings)
    case Err(e) => Err(e)
    case Ok(Some(u)) =>
      Ok(if !Contains(excl, u) then [Effect.Flag(Report("Uncapitalized comment: " + u, None)), Exclude(u)] else [])
    case Ok(None) => Ok([])
  }

  /** Whenever the validator as written does not raise, it makes the calls the corrected one makes. */
  lemma CapitalizedCommentsAgree(listings: seq<CodeListing>, excl: string)
    ensures CapitalizedCommentsAsWritten(listings, excl).Ok? ==>
      CapitalizedCommentsAsWritten(listings, excl) == Ok(CapitalizedComments(listings, excl))
  {
    FindAgrees(listings);
  }

  /**
   * Only the first uncapitalized comment is ever looked at: once it is
   * excluded, the file passes on every later run, whatever other
   * uncapitalized comments it holds.
   */
  lemma CapitalizedCommentsOnce(listings: seq<CodeListing>, excl: string, b: Buffer, stored: string, name: string, msgbreak: string)
    requires excl <= stored
    ensures CapitalizedComments(listings, Run(b, stored, name, msgbreak, CapitalizedComments(listings, excl)).1) == []
  {
    var es := CapitalizedComments(listings, excl);
    var s2 := Run(b, stored, name, msgbreak, es).1;
    RunRecords(b, stored, name, msgbreak, es);
    if FindUncapitalized(listings).Some? {
      var u := FindUncapitalized(listings).value;
      if Contains(excl, u) {
        ContainsExtended(excl, s2, u);
      } else {
        assert es[1] == Exclude(u);
      }
    }
  }

  // ---------------------------------------------------------------------------
  // ListingIndentation
  // ---------------------------------------------------------------------------

  /** `indent // 2` */
  function Level(line: string): nat {
    LeadingSpaces(line) / 2
  }

  /** An odd indent, which only a ` *` comment continuation may have. */
  predicate OddIndent(line: string) {
    LeadingSpaces(line) % 2 != 0 && !StartsWith(line, " *")
  }

  /** `test(x, y)` on the levels of a line and the next. */
  predicate StepOk(lines: seq<string>, n: nat)
    requires n + 1 < |lines|
  {
    var x, y := Level(lines[n]), Level(lines[n + 1]);
    y == x + 1 || y == x || y < x
  }

  /** The first line with an odd indent, or None. */
  function FirstOddIndent(lines: seq<string>): (r: Option<string>)
    ensures r.None? <==> forall k :: 0 <= k < |lines| ==> !OddIndent(lines[k])
    ensures r.Some? ==> exists k :: (0 <= k < |lines| && lines[k] == r.value && OddIndent(r.value) &&
      forall j :: 0 <= j < k ==> !OddIndent(lines[j]))
  {
    if lines == [] then None
    else if OddIndent(lines[0]) then Some(lines[0])
    else
      var r := FirstOddIndent(lines[1..]);
      assert forall k :: 1 <= k < |lines| ==> lines[1..][k - 1] == lines[k];
      r
  }

  /** Among the first `k` lines, the failing pairs `(n, n + 1)`, reported as `n + 2`. */
  function BadPairs(lines: seq<string>, k: nat): (ns: seq<nat>)
    requires k <= |lines|
    ensures forall v :: v in ns <==> exists n: nat :: n + 1 < k && !StepOk(lines, n) && v == n + 2
    ensures forall i :: 0 <= i < |ns| ==> ns[i] < k + 1
    ensures forall i, j :: 0 <= i < j < |ns| ==> ns[i] < ns[j]
  {
    if k < 2 then []
    else BadPairs(lines, k - 1) + (if !StepOk(lines, k - 2) then [k] else [])
  }

  /** Python's `str` of a list of numbers: `[3, 7]`. */
  function ListRepr(ns: seq<nat>): string {
    "[" + Join(seq(|ns|, i requires 0 <= i < |ns| => NatToString(ns[i])), ", ") + "]"
  }

  /** `inconsistent_indentation(listing)`: None for a consistent listing, else the message. */
  function Inconsistent(l: CodeListing): Option<string>
    requires l.lines != []
  {
    if !l.properSlugline then None
    else if LeadingSpaces(l.lines[0]) != 0 then Some("First line can't be indented")
    else
      match FirstOddIndent(l.lines)
      case Some(line) => Some(l.slug + ": Non-even indent in line: " + line)
      case None =>
        var bad := BadPairs(l.lines, |l.lines|);
        if bad == [] then None else Some(l.slug + " lines " + ListRepr(bad))
  }

  /** A proper slugline opens with `//`, so it is not indented. */
  lemma ProperSluglineNotIndented(slug: string)
    requires ProperSlugline(slug)
    ensures slug != [] && slug[0] == '/' && LeadingSpaces(slug) == 0
  {
    ProperSluglineIff(slug);
    assert slug[0] == '/';
  }

  /** A reported pair is a step more than one level deeper. */
  lemma BadPairReported(lines: seq<string>)
    requires BadPairs(lines, |lines|) != []
    ensures exists n: nat :: n + 1 < |lines| && Level(lines[n + 1]) > Level(lines[n]) + 1
  {
    var bad := BadPairs(lines, |lines|);
    assert bad[0] in bad;
    var n: nat :| n + 1 < |lines| && !StepOk(lines, n) && bad[0] == n + 2;
    assert Level(lines[n + 1]) > Level(lines[n]) + 1;
  }

  /** With nothing reported, every step deepens by at most one level. */
  lemma NoBadPairs(lines: seq<string>)
    requires BadPairs(lines, |lines|) == []
    ensures forall n: nat :: n + 1 < |lines| ==> Level(lines[n + 1]) <= Level(lines[n]) + 1
  {
    forall n: nat | n + 1 < |lines| ensures Level(lines[n + 1]) <= Level(lines[n]) + 1 {
      assert n + 2 !in BadPairs(lines, |lines|);
      assert StepOk(lines, n);
    }
  }

  /** With the first line unindented, every message opens with the slug. */
  lemma MessageNamesSlug(l: CodeListing)
    requires l.lines != [] && l.properSlugline && LeadingSpaces(l.lines[0]) == 0
    requires l.slug != [] && l.slug[0] == '/'
    ensures Inconsistent(l).Some? ==> StartsWith(Inconsistent(l).value, l.slug)
    ensures Inconsistent(l) != Some("First line can't be indented")
  {
    match FirstOddIndent(l.lines)
    case Some(line) =>
      var m := l.slug + ": Non-even indent in line: " + line;
      assert Inconsistent(l) == Some(m);
      assert m[..|l.slug|] == l.slug && m[0] == '/';
    case None =>
      var bad := BadPairs(l.lines, |l.lines|);
      if bad != [] {
        var m := l.slug + " lines " + ListRepr(bad);
        assert Inconsistent(l) == Some(m);
        assert m[..|l.slug|] == l.slug && m[0] == '/';
      }
  }

  /**
   * A listing fails exactly when it has a proper slugline and either an odd
   * indent outside a ` *` line or a line more than one level deeper than the
   * one before; dedents of any size pass.  The first line of a proper
   * slugline is never indented, so that message cannot occur; every
   * message opens with the slug.
   */
  lemma InconsistentSpec(l: CodeListing)
    requires WellFormed(l)
    ensures Inconsistent(l).None? <==>
      !l.properSlugline ||
      ((forall k :: 0 <= k < |l.lines| ==> !OddIndent(l.lines[k])) &&
       (forall n: nat :: n + 1 < |l.lines| ==> Level(l.lines[n + 1]) <= Level(l.lines[n]) + 1))
    ensures Inconsistent(l).Some? ==> StartsWith(Inconsistent(l).value, l.slug)
    ensures Inconsistent(l) != Some("First line can't be indented")
  {
    if l.properSlugline {
      ProperSluglineNotIndented(l.slug);
      if BadPairs(l.lines, |l.lines|) == [] {
        NoBadPairs(l.lines);
      } else {
        BadPairReported(l.lines);
      }
      MessageNamesSlug(l);
    }
  }

  /** The position of the first inconsistent listing, or the number of listings when there is none. */
  function FirstInconsistent(listings: seq<CodeListing>): (k: nat)
    requires forall i :: 0 <= i < |listings| ==> listings[i].lines != []
    ensures k <= |listings|
    ensures k < |listings| ==> Inconsistent(listings[k]).Some?
    ensures forall j :: 0 <= j < k ==> Inconsistent(listings[j]).None?
  {
    if listings == [] then 0
    else if Inconsistent(listings[0]).Some? then 0
    else
      var k := FirstInconsistent(listings[1..]);
      assert forall i :: 1 <= i < |listings| ==> listings[1..][i - 1] == listings[i];
      k + 1
  }

  /** `find_inconsistent_indentation`: the first listing's message, or None. */
  function FindInconsistent(listings: seq<CodeListing>): Option<string>
    requires forall i :: 0 <= i < |listings| ==> listings[i].lines != []
  {
    var k := FirstInconsistent(listings);
    if k < |listings| then Inconsistent(listings[k]) else None
  }

  /** `ListingIndentation`: at most one report, for the first inconsistent listing. */
  function ListingIndentation(listings: seq<CodeListing>): seq<Report>
    requires forall i :: 0 <= i < |listings| ==> listings[i].lines != []
  {
    match FindInconsistent(listings)
    case Some(m) => [Report("Inconsistent indentation: " + m, None)]
    case None => []
  }

  // ---------------------------------------------------------------------------
  // DuplicateExampleNames
  // ---------------------------------------------------------------------------

  /** The line `validate` writes for a listing: `slug[3:]` of a proper slugline, else nothing. */
  function Entry(l: CodeListing): seq<string> {
    if l.properSlugline then [Drop(l.slug, 3)] else []
  }

  /** The line a proper slugline contributes has no line break in it. */
  lemma EntryHasNoBreak(l: CodeListing)
    requires WellFormed(l) && l.properSlugline
    ensures '\n' !in Drop(l.slug, 3)
  {
    assert l.slug == Take(l.slug, 3) + Drop(l.slug, 3);
  }

  /** What `validate` writes for some listings, in order. */
  function Recorded(listings: seq<CodeListing>): seq<string> {
    if listings == [] then []
    else Recorded(listings[..|listings| - 1]) + Entry(listings[|listings| - 1])
  }

  /** Well-formed listings record lines without breaks. */
  lemma {:induction false} RecordedNoBreaks(listings: seq<CodeListing>)
    requires forall i :: 0 <= i < |listings| ==> WellFormed(listings[i])
    ensures forall k :: 0 <= k < |Recorded(listings)| ==> '\n' !in Recorded(listings)[k]
  {
    if listings != [] {
      var l := listings[|listings| - 1];
      RecordedNoBreaks(listings[..|listings| - 1]);
      if l.properSlugline {
        EntryHasNoBreak(l);
      }
    }
  }

  lemma RecordedStep(listings: seq<CodeListing>, i: nat)
    requires i < |listings|
    ensures Recorded(listings[..i + 1]) == Recorded(listings[..i]) + Entry(listings[i])
  {
    assert listings[..i + 1][..i] == listings[..i];
  }

  /** `xs.count(x)` */
  function Count(xs: seq<string>, x: string): nat {
    if xs == [] then 0 else Count(xs[..|xs| - 1], x) + (if xs[|xs| - 1] == x then 1 else 0)
  }

  /** `set([x for x in xs if xs.count(x) > 1])` */
  function Duplicates(xs: seq<string>): set<string> {
    set x | x in xs && Count(xs, x) > 1
  }

  /** `e.split('/')[-1]` */
  function Basename(e: string): string {
    var parts := Split(e, "/");
    parts[|parts| - 1]
  }

  function Basenames(xs: seq<string>): (ns: seq<string>)
    ensures |ns| == |xs| && forall i :: 0 <= i < |xs| ==> ns[i] == Basename(xs[i])
  {
    seq(|xs|, i requires 0 <= i < |xs| => Basename(xs[i]))
  }

  /** A basename holds no `/`, and a name without `/` is its own basename. */
  lemma BasenameSpec(e: string)
    ensures !Contains(Basename(e), "/")
    ensures !Contains(e, "/") ==> Basename(e) == e
  {
    SplitLastHasNoSeparator(e, "/");
    SplitSingle(e, "/");
  }

  lemma {:induction false} CountPositive(xs: seq<string>, x: string)
    ensures Count(xs, x) > 0 <==> x in xs
  {
    if xs != [] {
      var p := xs[..|xs| - 1];
      CountPositive(p, x);
      assert xs == p + [xs[|xs| - 1]];
    }
  }

  /** A value is a duplicate exactly when it sits at two different positions. */
  lemma {:induction false} DuplicatesIff(xs: seq<string>, x: string)
    ensures x in Duplicates(xs) <==> exists i, j :: 0 <= i < j < |xs| && xs[i] == x && xs[j] == x
  {
    if xs != [] {
      var p := xs[..|xs| - 1];
      DuplicatesIff(p, x);
      CountPositive(p, x);
      assert forall i :: 0 <= i < |p| ==> p[i] == xs[i];
      if exists i, j :: 0 <= i < j < |xs| && xs[i] == x && xs[j] == x {
        var i, j :| 0 <= i < j < |xs| && xs[i] == x && xs[j] == x;
        if j == |xs| - 1 {
          assert p[i] == x;
        }
      }
      if x in Duplicates(xs) {
        if xs[|xs| - 1] == x {
          var i :| 0 <= i < |p| && p[i] == x;
          assert xs[i] == x && xs[|xs| - 1] == x;
        }
      }
    }
  }

  /** Lines without breaks, each written with a break after it, read back as the same lines. */
  lemma ReadBack(ls: seq<string>)
    ensures (forall k :: 0 <= k < |ls| ==> '\n' !in ls[k]) ==> SplitLines(Terminated(ls)) == ls
  {
    if forall k :: 0 <= k < |ls| ==> '\n' !in ls[k] {
      SplitLinesTerminated(ls);
    }
  }

  /** The shared file of `DuplicateExampleNames`, one recorded example per line. */
  class ExampleNames {
    var allExamples: string
    ghost var recorded: seq<string>

    ghost predicate Valid()
      reads this
    {
      allExamples == Terminated(recorded)
    }

    /** The file is cleared when the class is built. */
    constructor ()
      ensures Valid() && recorded == []
    {
      allExamples := "";
      recorded := [];
    }

    /** `validate(md)`: appends the proper sluglines of one file's listings. */
    method Validate(listings: seq<CodeListing>)
      requires Valid()
      modifies this
      ensures Valid() && recorded == old(recorded) + Recorded(listings)
    {
      var i := 0;
      while i < |listings|
        invariant i <= |listings|
        invariant Valid() && recorded == old(recorded) + Recorded(listings[..i])
      {
        var l := listings[i];
        RecordedStep(listings, i);
        if l.properSlugline {
          var line := Drop(l.slug, 3);
          TerminatedAppend(recorded, line);
          allExamples := allExamples + line + "\n";
          recorded := recorded + [line];
          assert recorded == old(recorded) + (Recorded(listings[..i]) + [line]);
        }
        i := i + 1;
      }
      assert listings[..|listings|] == listings;
    }

    /**
     * `post_process()`: the file read back line by line gives what was
     * recorded, as long as no recorded line holds a break (see
     * `RecordedNoBreaks`); the paths and the basenames that occur more
     * than once.
     */
    function PostProcess(): (r: (set<string>, set<string>))
      reads this
      requires Valid()
      ensures (forall k :: 0 <= k < |recorded| ==> '\n' !in recorded[k]) ==>
        r.0 == Duplicates(recorded) && r.1 == Duplicates(Basenames(recorded))
    {
      ReadBack(recorded);
      var examples := SplitLines(allExamples);
      (Duplicates(examples), Duplicates(Basenames(examples)))
    }
  }

  // ---------------------------------------------------------------------------
  // PackageAndDirectoryNames
  // ---------------------------------------------------------------------------

  /** A directory and a package that are both present and disagree once the directory is lower-cased. */
  predicate Mismatch(l: CodeListing) {
    l.directory.Some? && l.directory.value != "" && l.package != "" && l.package != Lower(l.directory.value)
  }

  /**
   * One listing: the package is excluded, then reported with the
   * lower-cased directory, unless it is excluded already.
   */
  function PackageEffects(l: CodeListing, excl: string): seq<Effect> {
    if Mismatch(l) && !Contains(excl, l.package) then
      [Exclude(l.package),
       Effect.Flag(Report("Inconsistent package/directory name:\n    " + l.package + " != " + Lower(l.directory.value), Some(l.mdStartingLine)))]
    else []
  }

  /** `PackageAndDirectoryNames` */
  function PackageAndDirectoryNames(listings: seq<CodeListing>, excl: string): seq<Effect> {
    FlattenWith(listings, excl, PackageEffects)
  }

  /** Once the calls are made, running the validator again on the updated exclusion file reports nothing. */
  lemma PackageAndDirectoryNamesOnce(listings: seq<CodeListing>, excl: string, b: Buffer, stored: string, name: string, msgbreak: string)
    requires excl <= stored
    ensures PackageAndDirectoryNames(listings, Run(b, stored, name, msgbreak, PackageAndDirectoryNames(listings, excl)).1) == []
  {
    var es := PackageAndDirectoryNames(listings, excl);
    var s2 := Run(b, stored, name, msgbreak, es).1;
    RunRecords(b, stored, name, msgbreak, es);
    forall i | 0 <= i < |listings| ensures PackageEffects(listings[i], s2) == [] {
      var l := listings[i];
      if Mismatch(l) && !Contains(excl, l.package) {
        FlattenWithMember(listings, excl, PackageEffects, Exclude(l.package));
        var j :| 0 <= j < |es| && es[j] == Exclude(l.package);
      } else if Contains(excl, l.package) {
        ContainsExtended(excl, s2, l.package);
      }
    }
    FlattenWithEmpty(listings, s2, PackageEffects);
  }

  // ---------------------------------------------------------------------------
  // DirectoryNameConsistency
  // ---------------------------------------------------------------------------

  /** The directories the listings name, less those in the exclusion set. */
  function Dirset(listings: seq<CodeListing>, excludeSet: set<string>): set<string> {
    (set l | l in listings && l.directory.Some? && l.directory.value != "" :: l.directory.value) - excludeSet
  }

  /** Concatenation of the words, each capitalized. */
  function CapitalizedWords(ws: seq<string>): string {
    if ws == [] then "" else Capitalize(ws[0]) + CapitalizedWords(ws[1..])
  }

  /** The directory an atom's file name calls for: `name[4:-3]` split at `_`, each word capitalized. */
  function CalculatedDir(name: string): string {
    CapitalizedWords(Split(Drop(Take(name, -3), 4), "_"))
  }

  lemma SetMinusEmpty(a: set<string>, b: set<string>)
    ensures a - b == {} <==> a <= b
  {
    if a - b == {} {
      forall x | x in a ensures x in b {
        assert x !in a - b;
      }
    }
  }

  /** What `DirectoryNameConsistency` decides: several directories, and the calculated one when it is missing. */
  datatype DirVerdict = DirVerdict(multiple: bool, inconsistent: Option<string>)

  function DirectoryNameConsistency(listings: seq<CodeListing>, name: string,
                                    excludeSet: set<string>, dirnameExcludeSet: set<string>): (v: DirVerdict)
    ensures v.multiple <==> |Dirset(listings, excludeSet)| > 1
    ensures v.inconsistent.Some? ==> v.inconsistent.value == CalculatedDir(name) && CalculatedDir(name) !in Dirset(listings, excludeSet)
    ensures v.inconsistent.None? <==> Dirset(listings, excludeSet) <= dirnameExcludeSet || CalculatedDir(name) in Dirset(listings, excludeSet)
  {
    var d := Dirset(listings, excludeSet);
    SetMinusEmpty(d, dirnameExcludeSet);
    DirVerdict(|d| > 1, if d - dirnameExcludeSet != {} && CalculatedDir(name) !in d then Some(CalculatedDir(name)) else None)
  }

  /** Listings that all name the directory the file name calls for pass. */
  lemma SingleCalculatedDirPasses(listings: seq<CodeListing>, name: string, excludeSet: set<string>, dirnameExcludeSet: set<string>)
    requires CalculatedDir(name) !in excludeSet
    requires exists i :: 0 <= i < |listings| && listings[i].directory == Some(CalculatedDir(name))
    requires forall i :: 0 <= i < |listings| && listings[i].directory.Some? && listings[i].directory.value != "" ==>
      listings[i].directory.value == CalculatedDir(name)
    ensures DirectoryNameConsistency(listings, name, excludeSet, dirnameExcludeSet) == DirVerdict(false, None)
  {
    var c := CalculatedDir(name);
    var d := Dirset(listings, excludeSet);
    var i :| 0 <= i < |listings| && listings[i].directory == Some(c);
    if c != "" {
      assert c in d;
      assert d == {c};
    } else {
      assert d == {};
    }
  }
}
