/**
 * `zzz_imported_tools/Disassemble.py`: the older disassembler, whose nested
 * `mdfilename` keeps `` ` ``, `,` and `!` in the filenames.
 */
module Disassemble {

  import opened Text
  import opened Numerals
  import opened Chapters
  import Filenames

  /** `mdfilename(h1, n)`: `"%02d_" % n` in front of the shorter replacement chain; see `Filenames.KeepName`. */
  function MdFilename(h1: string, n: nat): string {
    ZeroPad(n, 2) + "_" + Filenames.DisassembleFilename(h1)
  }

  /**
   * Below 100 the prefix is exactly two digits reading back as `n`, then `_`,
   * the heading with `` ` ``, `,` and `!` kept, and `.md`.
   */
  lemma {:induction false} MdFilenameParts(h1: string, n: nat)
    requires n < 100
    ensures var fn := MdFilename(h1, n);
      |fn| > 2 && AllDigits(fn[..2]) && Value(fn[..2]) == n && fn[2..] == "_" + Filenames.KeepName(h1) + ".md"
  {
    assert Pow10(2) == 100;
    ZeroPadWidth(n, 2);
    PaddedParts(n, 2, Filenames.DisassembleFilename(h1));
  }

  /** The filename determines the chapter position. */
  lemma MdFilenamePositions()
    ensures forall a, b, i: nat, j: nat :: MdFilename(a, i) == MdFilename(b, j) ==> i == j
  {
    forall a, b, i: nat, j: nat | MdFilename(a, i) == MdFilename(b, j)
      ensures i == j
    {
      PaddedInjective(i, j, 2, Filenames.DisassembleFilename(a), Filenames.DisassembleFilename(b));
    }
  }

  /**
   * `disassemble_combined_markdown_file`, given the parts of the book split
   * at its chapter headings: the files written, in order, as (name, text).
   * Chapter `i` of the map goes to `mdfilename(p, i)` with its text as the
   * map holds it.
   */
  method DisassembleCombinedMarkdownFile(parts: seq<string>) returns (files: seq<(string, string)>)
    requires |parts| % 2 == 1
    ensures files == Outputs(ChapterMap(parts, |parts| / 2), MdFilename, AsIs)
  {
    var chaps := BuildChapters(parts);
    files := WriteChapters(chaps, MdFilename, AsIs);
  }

  /** No two chapters of a disassembled book are written to the same file. */
  lemma {:induction false} DisassembledNamesDistinct(parts: seq<string>)
    requires |parts| % 2 == 1
    ensures var files := Outputs(ChapterMap(parts, |parts| / 2), MdFilename, AsIs);
      forall i, j :: 0 <= i < j < |files| ==> files[i].0 != files[j].0
  {
    MdFilenamePositions();
    OutputNamesDistinct(ChapterMap(parts, |parts| / 2), MdFilename, AsIs);
  }
}
