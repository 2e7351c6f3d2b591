/**
 * `book_builder/html_generator.py`: cutting a sample book at its end tag,
 * and the footer of every HTML page, whose links lead to the previous and
 * the next atom, wrapping around at both ends.
 */
module HtmlGenerator {

  import opened Results
  import opened Text
  import opened Chapters

  // ---------------------------------------------------------------------------
  // html_sample_end_fixup
  // ---------------------------------------------------------------------------

  const SampleEndTag := "{{SAMPLE_END}}"

  /**
   * What `html_sample_end_fixup` writes back for one file with text `text`:
   * None when the file is left alone, else the lines before the tag line,
   * joined and stripped, a blank line and `endText`.
   */
  function SampleEndFixup(text: string, endText: string): Result<Option<string>, string> {
    if !Contains(text, SampleEndTag) then Ok(None)
    else
      var lines := SplitLines(text);
      match IndexOfLine(lines, SampleEndTag)
      case Err(e) => Err(e)
      case Ok(i) => Ok(Some(Strip(Join(lines[..i], "\n")) + "\n\n" + endText))
  }

  /**
   * A file without the tag is left alone.  A file with the tag only inside a
   * longer line raises ValueError.  Otherwise the new text is the part before
   * the first line that is exactly the tag, stripped, then a blank line and
   * the end text; the kept part neither starts nor ends with whitespace.
   */
  lemma SampleEndFixupSpec(text: string, endText: string)
    ensures !Contains(text, SampleEndTag) ==> SampleEndFixup(text, endText) == Ok(None)
    ensures SampleEndFixup(text, endText).Err? <==> Contains(text, SampleEndTag) && SampleEndTag !in SplitLines(text)
    ensures SampleEndFixup(text, endText).Err? ==> SampleEndFixup(text, endText).error == "ValueError"
    ensures SampleEndFixup(text, endText) == Ok(None) ==> !Contains(text, SampleEndTag)
    ensures SampleEndFixup(text, endText).Ok? && SampleEndFixup(text, endText).value.Some? ==>
      var lines := SplitLines(text);
      exists i :: 0 <= i < |lines| && lines[i] == SampleEndTag && (forall k :: 0 <= k < i ==> lines[k] != SampleEndTag) &&
        var kept := Strip(Join(lines[..i], "\n"));
        SampleEndFixup(text, endText).value.value == kept + "\n\n" + endText &&
        (kept == [] || (!IsSpace(kept[0]) && !IsSpace(kept[|kept| - 1])))
  {
    var lines := SplitLines(text);
    if Contains(text, SampleEndTag) && IndexOfLine(lines, SampleEndTag).Ok? {
      StripEnds(Join(lines[..IndexOfLine(lines, SampleEndTag).value], "\n"));
    }
  }

  /** A tag standing on a line of its own is in the text, so such a file is never left alone. */
  lemma SampleEndTagLine(text: string, endText: string)
    requires SampleEndTag in SplitLines(text)
    ensures SampleEndFixup(text, endText).Ok? && SampleEndFixup(text, endText).value.Some?
  {
    SplitLinesContained(text, SampleEndTag);
  }

  // ---------------------------------------------------------------------------
  // Footer
  // ---------------------------------------------------------------------------

  /** `Path(name).stem`: the name without its last suffix; a leading or trailing dot is no suffix. */
  function Stem(name: string): string {
    var i := RFindChar(name, '.');
    if 0 < i < |name| - 1 then name[..i] else name
  }

  /** A Markdown file name loses exactly its ".md". */
  lemma StemMarkdown(name: string)
    requires |name| > 3 && EndsWith(name, ".md")
    ensures Stem(name) == name[..|name| - 3]
  {
    assert name[|name| - 3] == '.' && name[|name| - 2] == 'm' && name[|name| - 1] == 'd';
  }

  /** `[md.stem for md in markdowns]` */
  function Stems(names: seq<string>): (r: seq<string>)
    ensures |r| == |names| && forall i :: 0 <= i < |names| ==> r[i] == Stem(names[i])
  {
    if names == [] then [] else [Stem(names[0])] + Stems(names[1..])
  }

  /** A deque rotated by -1: every element moves one place towards the front, the first goes last. */
  function RotateLeft<T>(s: seq<T>): (r: seq<T>)
    ensures |r| == |s|
  {
    if s == [] then [] else s[1..] + [s[0]]
  }

  /** A deque rotated by 1: every element moves one place towards the back, the last goes first. */
  function RotateRight<T>(s: seq<T>): (r: seq<T>)
    ensures |r| == |s|
  {
    if s == [] then [] else [s[|s| - 1]] + s[..|s| - 1]
  }

  /** The position before `n` among `k`, the last one before the first: `(n - 1) mod k`. */
  function Prev(n: nat, k: nat): (r: nat)
    requires n < k
    ensures r < k
  {
    if n == 0 then k - 1 else n - 1
  }

  /** The position after `n` among `k`, the first one after the last: `(n + 1) mod k`. */
  function Next(n: nat, k: nat): (r: nat)
    requires n < k
    ensures r < k
  {
    if n + 1 == k then 0 else n + 1
  }

  /** The wrap-around positions are Python's `(n - 1) % k` and `(n + 1) % k`. */
  lemma PrevNextMod(n: nat, k: nat)
    requires n < k
    ensures Prev(n, k) == (n - 1) % k && Next(n, k) == (n + 1) % k
  {
  }

  /** Position `n` of the left rotation holds the element after `n`, wrapping at the end. */
  lemma RotateLeftAt<T>(s: seq<T>, n: nat)
    requires n < |s|
    ensures RotateLeft(s)[n] == s[Next(n, |s|)]
  {
  }

  /** Position `n` of the right rotation holds the element before `n`, wrapping at the front. */
  lemma RotateRightAt<T>(s: seq<T>, n: nat)
    requires n < |s|
    ensures RotateRight(s)[n] == s[Prev(n, |s|)]
  {
  }

  /** The two rotations undo each other. */
  lemma RotateInverse<T>(s: seq<T>)
    ensures RotateLeft(RotateRight(s)) == s && RotateRight(RotateLeft(s)) == s
  {
    if s != [] {
      assert RotateRight(s)[1..] + [RotateRight(s)[0]] == s;
      assert [RotateLeft(s)[|s| - 1]] + RotateLeft(s)[..|s| - 1] == s;
    }
  }

  /** The links of the first `n` stems: each stem with the stems before and after it, circularly. */
  function LinkTable(stems: seq<string>, n: nat): OrderedMap<(string, string)>
    requires n <= |stems|
  {
    if n == 0 then []
    else
      var k := |stems|;
      Put(LinkTable(stems, n - 1), stems[n - 1], (stems[Prev(n - 1, k)], stems[Next(n - 1, k)]))
  }

  /**
   * With distinct stems, stem `j` of `k` links back to stem `(j - 1) mod k`
   * and on to stem `(j + 1) mod k`.
   */
  lemma {:induction false} LinkTableGet(stems: seq<string>, n: nat, j: nat)
    requires n <= |stems| && j < n && Distinct(stems)
    ensures Get(LinkTable(stems, n), stems[j]) == Some((stems[Prev(j, |stems|)], stems[Next(j, |stems|)]))
  {
    var k := |stems|;
    PutGet(LinkTable(stems, n - 1), stems[n - 1], (stems[Prev(n - 1, k)], stems[Next(n - 1, k)]), stems[j]);
    if j < n - 1 {
      LinkTableGet(stems, n - 1, j);
    }
  }

  /** A name that is not one of the first `n` stems has no links (KeyError). */
  lemma {:induction false} LinkTableAbsent(stems: seq<string>, n: nat, x: string)
    requires n <= |stems| && forall j :: 0 <= j < n ==> stems[j] != x
    ensures Get(LinkTable(stems, n), x) == None
  {
    if n > 0 {
      LinkTableAbsent(stems, n - 1, x);
      var k := |stems|;
      PutGet(LinkTable(stems, n - 1), stems[n - 1], (stems[Prev(n - 1, k)], stems[Next(n - 1, k)]), x);
    }
  }

  /** Every stem has links, duplicates or not. */
  lemma {:induction false} LinkTablePresent(stems: seq<string>, n: nat, j: nat)
    requires n <= |stems| && j < n
    ensures Get(LinkTable(stems, n), stems[j]).Some?
  {
    var k := |stems|;
    PutGet(LinkTable(stems, n - 1), stems[n - 1], (stems[Prev(n - 1, k)], stems[Next(n - 1, k)]), stems[j]);
    if j < n - 1 {
      LinkTablePresent(stems, n - 1, j);
    }
  }

  /**
   * The links wrap around: the first stem's previous is the last stem and the
   * last stem's next is the first; a single stem links to itself both ways.
   */
  lemma LinkTableWraps(stems: seq<string>)
    requires stems != [] && Distinct(stems)
    ensures Get(LinkTable(stems, |stems|), stems[0]).Some? && Get(LinkTable(stems, |stems|), stems[0]).value.0 == stems[|stems| - 1]
    ensures Get(LinkTable(stems, |stems|), stems[|stems| - 1]).Some? && Get(LinkTable(stems, |stems|), stems[|stems| - 1]).value.1 == stems[0]
    ensures |stems| == 1 ==> Get(LinkTable(stems, 1), stems[0]) == Some((stems[0], stems[0]))
  {
    LinkTableGet(stems, |stems|, 0);
    LinkTableGet(stems, |stems|, |stems| - 1);
  }

  /**
   * The class-level state `Footer.init` sets up: the sorted Markdown files
   * without the front matter, their stems, the two rotated copies and the
   * link table.
   */
  class FooterTable {
    var markdowns: seq<string>
    var stems: seq<string>
    var nexts: seq<string>
    var previouses: seq<string>
    var links: OrderedMap<(string, string)>

    constructor ()
      ensures markdowns == [] && stems == [] && nexts == [] && previouses == [] && links == []
    {
      markdowns, stems, nexts, previouses, links := [], [], [], [], [];
    }

    /**
     * `Footer.init(target_dir)` given the directory's Markdown file names in
     * sorted order.  Popping the front matter from an empty list raises
     * IndexError after `markdowns` is already set.
     */
    method Init(sorted: seq<string>) returns (err: Option<string>)
      modifies this
      ensures err.Some? <==> sorted == []
      ensures err.Some? ==> (err == Some("IndexError") && markdowns == [] &&
        stems == old(stems) && nexts == old(nexts) && previouses == old(previouses) && links == old(links))
      ensures err.None? ==> (markdowns == sorted[1..] && stems == Stems(markdowns) &&
        nexts == RotateLeft(stems) && previouses == RotateRight(stems) && links == LinkTable(stems, |stems|))
    {
      markdowns := sorted;
      if markdowns == [] {
        return Some("IndexError");
      }
      var mds := markdowns[1..];
      var ss := Stems(mds);
      var ns, ps := RotateLeft(ss), RotateRight(ss);
      var table := [];
      var n := 0;
      while n < |ss|
        invariant n <= |ss| && table == LinkTable(ss, n)
      {
        RotateRightAt(ss, n);
        RotateLeftAt(ss, n);
        table := Put(table, ss[n], (ps[n], ns[n]));
        n := n + 1;
      }
      markdowns, stems, nexts, previouses, links := mds, ss, ns, ps, table;
      return None;
    }
  }

  /** One page's footer: the stems of the pages before and after it. */
  datatype Footer = Footer(previous: string, next: string)

  /** `Footer(md)`: the links of the page's stem, or KeyError. */
  function NewFooter(links: OrderedMap<(string, string)>, md: string): Result<Footer, string> {
    match Get(links, Stem(md))
    case None => Err("KeyError")
    case Some(pn) => Ok(Footer(pn.0, pn.1))
  }

  /** Every file `Footer.init` kept gets a footer: its stem is in the table. */
  lemma FooterForEveryMarkdown(t: seq<string>, i: nat)
    requires i < |t|
    ensures NewFooter(LinkTable(Stems(t), |t|), t[i]).Ok?
  {
    LinkTablePresent(Stems(t), |t|, i);
  }

  /** `"&nbsp;" * 10` and the like: `n` copies of `s`. */
  function Times(s: string, n: nat): (r: string)
    ensures |r| == |s| * n
  {
    if n == 0 then [] else s + Times(s, n - 1)
  }

  /** `Footer.copyright` */
  function Copyright(notice: string): string {
    "\n<p class=\"copy\">" + notice + "</p><br><br>"
  }

  /** The link back, as it opens the footer. */
  function PreviousLink(previous: string): string {
    "<br><br><a href=\"" + previous + ".html\">Previous</a>"
  }

  /** The link on, as it follows the spaces. */
  function NextLink(next: string): string {
    "<a href=\"" + next + ".html\">Next</a><br>"
  }

  /** `str(footer)` */
  function FooterText(f: Footer, notice: string): string {
    PreviousLink(f.previous) + Times("&nbsp;", 10) + NextLink(f.next) + Copyright(notice)
  }

  /**
   * The footer is the link to the previous page, sixty characters of ten
   * non-breaking spaces, the link to the next page, then the copyright notice.
   */
  lemma FooterLayout(f: Footer, notice: string)
    ensures var r := FooterText(f, notice);
      var p, sp, nx := PreviousLink(f.previous), Times("&nbsp;", 10), NextLink(f.next);
      |sp| == 60 &&
      r[..|p|] == p && r[|p|..|p| + 60] == sp && r[|p| + 60..|r| - |Copyright(notice)|] == nx &&
      r[|r| - |Copyright(notice)|..] == Copyright(notice)
  {
    ConcatParts(PreviousLink(f.previous), Times("&nbsp;", 10), NextLink(f.next), Copyright(notice));
  }
}
