/**
 * `atomic_kotlin_builder/util.py`: the chapter filenames and the split of the
 * combined book back into one Markdown file per chapter.
 */
module KotlinUtil {

  import opened Text
  import opened Numerals
  import opened Chapters
  import Filenames

  /** `create_markdown_filename(h1)`: see `Filenames.SafeName` for the character map. */
  function CreateMarkdownFilename(h1: string): (fn: string)
    ensures fn == Filenames.SafeName(h1) + ".md"
  {
    Filenames.MarkdownFilename(h1)
  }

  /** `create_numbered_markdown_filename(h1, n)`: `"%02d_" % n` in front of the filename. */
  function CreateNumberedMarkdownFilename(h1: string, n: nat): string {
    ZeroPad(n, 2) + "_" + CreateMarkdownFilename(h1)
  }

  /** Below 100 the prefix is exactly two digits reading back as `n`, then `_` and the plain filename. */
  lemma {:induction false} NumberedFilenameWidth(h1: string, n: nat)
    requires n < 100
    ensures var fn := CreateNumberedMarkdownFilename(h1, n);
      |fn| > 2 && AllDigits(fn[..2]) && Value(fn[..2]) == n && fn[2..] == "_" + CreateMarkdownFilename(h1)
  {
    assert Pow10(2) == 100;
    ZeroPadWidth(n, 2);
    PaddedParts(n, 2, CreateMarkdownFilename(h1));
  }

  /** Two chapters at different positions never get the same file. */
  lemma {:induction false} NumberedFilenameInjective(h1: string, n: nat, h2: string, m: nat)
    requires CreateNumberedMarkdownFilename(h1, n) == CreateNumberedMarkdownFilename(h2, m)
    ensures n == m && Filenames.SafeName(h1) == Filenames.SafeName(h2)
  {
    PaddedInjective(n, m, 2, CreateMarkdownFilename(h1), CreateMarkdownFilename(h2));
    var a, b := Filenames.SafeName(h1), Filenames.SafeName(h2);
    assert a == (a + ".md")[..|a|] == (b + ".md")[..|b|] == b;
  }

  /** The numbered filename determines the chapter position. */
  lemma FilenamePositions()
    ensures forall a, b, i: nat, j: nat ::
      CreateNumberedMarkdownFilename(a, i) == CreateNumberedMarkdownFilename(b, j) ==> i == j
  {
    forall a, b, i: nat, j: nat | CreateNumberedMarkdownFilename(a, i) == CreateNumberedMarkdownFilename(b, j)
      ensures i == j
    {
      NumberedFilenameInjective(a, i, b, j);
    }
  }

  /**
   * `disassemble_combined_markdown_file`, given the parts of the book split
   * at its chapter headings: the files written, in order, as (name, text).
   * Chapter `i` of the map goes to its numbered filename with its text as
   * the map holds it.
   */
  method DisassembleCombinedMarkdownFile(parts: seq<string>) returns (files: seq<(string, string)>)
    requires |parts| % 2 == 1
    ensures files == Outputs(ChapterMap(parts, |parts| / 2), CreateNumberedMarkdownFilename, AsIs)
  {
    var chaps := BuildChapters(parts);
    files := WriteChapters(chaps, CreateNumberedMarkdownFilename, AsIs);
  }

  /** No two chapters of a disassembled book are written to the same file. */
  lemma {:induction false} DisassembledNamesDistinct(parts: seq<string>)
    requires |parts| % 2 == 1
    ensures var files := Outputs(ChapterMap(parts, |parts| / 2), CreateNumberedMarkdownFilename, AsIs);
      forall i, j :: 0 <= i < j < |files| ==> files[i].0 != files[j].0
  {
    FilenamePositions();
    OutputNamesDistinct(ChapterMap(parts, |parts| / 2), CreateNumberedMarkdownFilename, AsIs);
  }
}
