/**
 * `atomic_kotlin_builder/epub.py`: the same chapter filenames as
 * `atomic_kotlin_builder/util.py`, the list of atom names recorded while the
 * chapter files are combined, and a disassembly that refuses to write when
 * the chapters it finds do not match the atoms that were combined.
 */
module KotlinEpub {

  import opened Results
  import opened Text
  import opened Numerals
  import opened Slices
  import opened Chapters
  import Filenames
  import KotlinUtil

  /** `create_markdown_filename(h1)`: see `Filenames.SafeName` for the character map. */
  function CreateMarkdownFilename(h1: string): (fn: string)
    ensures fn == Filenames.SafeName(h1) + ".md"
  {
    Filenames.MarkdownFilename(h1)
  }

  /** `create_numbered_markdown_filename(h1, n)`: `"%02d_" % n` in front of the filename. */
  function CreateNumberedMarkdownFilename(h1: string, n: nat): string {
    ZeroPad(n, 2) + "_" + CreateMarkdownFilename(h1)
  }

  /** Both copies of the numbered filename agree on every heading and number. */
  lemma SameFilenameAsUtil(h1: string, n: nat)
    ensures CreateNumberedMarkdownFilename(h1, n) == KotlinUtil.CreateNumberedMarkdownFilename(h1, n)
  {
  }

  /** `md.name[3:-3]`: the atom name recorded for a combined file. */
  function AtomName(fileName: string): string {
    Drop(Take(fileName, -3), 3)
  }

  /**
   * A file written by the disassembly at a position below 100 is recorded
   * under its heading's safe name, which is the form the name check compares
   * against: `create_markdown_filename(nm)[:-3]`.
   */
  lemma {:induction false} AtomNameOfNumbered(h1: string, n: nat)
    requires n < 100
    ensures AtomName(CreateNumberedMarkdownFilename(h1, n)) == Filenames.SafeName(h1)
    ensures Take(CreateMarkdownFilename(h1), -3) == Filenames.SafeName(h1)
  {
    var safe := Filenames.SafeName(h1);
    var fn := CreateNumberedMarkdownFilename(h1, n);
    assert Pow10(2) == 100;
    ZeroPadWidth(n, 2);
    assert fn == ZeroPad(n, 2) + "_" + (safe + ".md");
    assert Take(fn, -3) == fn[..|fn| - 3];
    assert fn[..|fn| - 3] == ZeroPad(n, 2) + "_" + safe;
    assert AtomName(fn) == (ZeroPad(n, 2) + "_" + safe)[3..];
    assert Take(safe + ".md", -3) == (safe + ".md")[..|safe|];
  }

  // ---------------------------------------------------------------------------
  // combine_markdown_files
  // ---------------------------------------------------------------------------

  /** The combined book: every file's content followed by a line break, in the order given. */
  function Assembled(mds: seq<(string, string)>): string {
    if mds == [] then "" else Assembled(mds[..|mds| - 1]) + mds[|mds| - 1].1 + "\n"
  }

  /** The contents of the files, in order. */
  function Contents(mds: seq<(string, string)>): (cs: seq<string>)
    ensures |cs| == |mds|
    ensures forall i :: 0 <= i < |mds| ==> cs[i] == mds[i].1
  {
    seq(|mds|, i requires 0 <= i < |mds| => mds[i].1)
  }

  /** The combined book is the contents joined by line breaks, with one more break at the end. */
  lemma {:induction false} AssembledJoin(mds: seq<(string, string)>)
    requires mds != []
    ensures Assembled(mds) == Join(Contents(mds), "\n") + "\n"
  {
    var front := mds[..|mds| - 1];
    var last := mds[|mds| - 1].1;
    if front == [] {
      assert Contents(mds) == [last];
    } else {
      AssembledJoin(front);
      assert Contents(mds) == Contents(front) + [last];
      JoinAppend(Contents(front), last, "\n");
    }
  }

  /**
   * `combine_markdown_files`, given the numbered chapter files as (name,
   * content) in the order the directory listing yields them: the combined
   * book and the atom names recorded on the way.
   */
  method CombineMarkdownFiles(mds: seq<(string, string)>) returns (assembled: string, atomNames: seq<string>)
    ensures assembled == Assembled(mds)
    ensures |atomNames| == |mds| && forall i :: 0 <= i < |mds| ==> atomNames[i] == AtomName(mds[i].0)
  {
    assembled := "";
    atomNames := [];
    var i := 0;
    while i < |mds|
      invariant 0 <= i <= |mds|
      invariant assembled == Assembled(mds[..i])
      invariant |atomNames| == i && forall k :: 0 <= k < i ==> atomNames[k] == AtomName(mds[k].0)
    {
      atomNames := atomNames + [AtomName(mds[i].0)];
      assert mds[..i + 1][..i] == mds[..i];
      assembled := assembled + mds[i].1 + "\n";
      i := i + 1;
    }
    assert mds[..i] == mds;
  }

  // ---------------------------------------------------------------------------
  // disassemble_combined_markdown_file
  // ---------------------------------------------------------------------------

  /** `set(anames)` */
  function NameSet(names: seq<string>): set<string> {
    set nm | nm in names
  }

  /** `create_markdown_filename(nm)[:-3]` */
  function NewName(nm: string): string {
    Take(CreateMarkdownFilename(nm), -3)
  }

  /** `{f(nm) for nm in names}` */
  function Image(names: seq<string>, f: string -> string): set<string> {
    set nm | nm in names :: f(nm)
  }

  /** The names the chapters found would be recorded under, and "Front". */
  function NewNames(names: seq<string>): set<string> {
    Image(names, NewName) + {"Front"}
  }

  /** The old-versus-new check: every old name is a new name, and there is one old name per chapter plus "Front". */
  predicate NamesMatch(oldNames: seq<string>, names: seq<string>) {
    NameSet(oldNames) - NewNames(names) == {} && |oldNames| == |names| + 1
  }

  /** `chaps[p].strip() + "\n"`: each chapter's text as written here. */
  function StrippedBody(text: string): string {
    Strip(text) + "\n"
  }

  /**
   * `disassemble_combined_markdown_file`, given the parts of the book split
   * at its chapter headings and the atom names recorded by the last combine:
   * "Disassembly failed" when the names do not match, otherwise the files
   * written, in order, as (name, text).
   */
  method DisassembleCombinedMarkdownFile(parts: seq<string>, oldNames: seq<string>)
    returns (r: Result<seq<(string, string)>, string>)
    requires |parts| % 2 == 1
    ensures r.Err? <==> !NamesMatch(oldNames, Names(parts))
    ensures r.Err? ==> r.error == "Disassembly failed"
    ensures r.Ok? ==> var chaps := ChapterMap(parts, |parts| / 2); r.value == Outputs(chaps, CreateNumberedMarkdownFilename, StrippedBody)
  {
    var chaps := BuildChapters(parts);
    var names := Names(parts);
    var diff := NameSet(oldNames) - NewNames(names);
    if diff != {} {
      return Err("Disassembly failed");
    }
    if |oldNames| != |names| + 1 {
      return Err("Disassembly failed");
    }
    var files := WriteChapters(chaps, CreateNumberedMarkdownFilename, StrippedBody);
    return Ok(files);
  }

  /**
   * The round trip: a file written at a position below 100, combined again,
   * is recorded under exactly the name the next disassembly expects for its
   * chapter, `create_markdown_filename(nm)[:-3]`.
   */
  lemma {:induction false} WrittenFileAtomName(chaps: OrderedMap<string>, i: nat)
    requires i < |chaps| && i < 100
    ensures AtomName(Outputs(chaps, CreateNumberedMarkdownFilename, StrippedBody)[i].0) == NewName(chaps[i].0)
  {
    AtomNameOfNumbered(chaps[i].0, i);
  }

  /** No two chapters are written to the same file. */
  lemma {:induction false} WrittenNamesDistinct(chaps: OrderedMap<string>)
    ensures var files := Outputs(chaps, CreateNumberedMarkdownFilename, StrippedBody);
      forall i, j :: 0 <= i < j < |files| ==> files[i].0 != files[j].0
  {
    forall a, b, i: nat, j: nat | CreateNumberedMarkdownFilename(a, i) == CreateNumberedMarkdownFilename(b, j)
      ensures i == j
    {
      SameFilenameAsUtil(a, i);
      SameFilenameAsUtil(b, j);
      KotlinUtil.NumberedFilenameInjective(a, i, b, j);
    }
    OutputNamesDistinct(chaps, CreateNumberedMarkdownFilename, StrippedBody);
  }

  /**
   * When the recorded names have no repeats, passing the check means the
   * recorded names are exactly the new names: none is missing either.
   */
  lemma {:induction false} NamesMatchExactly(oldNames: seq<string>, names: seq<string>)
    requires Distinct(oldNames) && NamesMatch(oldNames, names)
    ensures NameSet(oldNames) == NewNames(names)
  {
    DistinctCard(oldNames);
    ImageCard(names, NewName);
    assert NameSet(oldNames) <= NewNames(names);
    SubsetCard(NameSet(oldNames), NewNames(names));
  }

  lemma {:induction false} DistinctCard(s: seq<string>)
    requires Distinct(s)
    ensures |NameSet(s)| == |s|
  {
    if s != [] {
      var front := s[..|s| - 1];
      assert Distinct(front);
      DistinctCard(front);
      assert NameSet(s) == NameSet(front) + {s[|s| - 1]};
      assert s[|s| - 1] !in NameSet(front);
    } else {
      assert NameSet(s) == {};
    }
  }

  lemma {:induction false} ImageCard(names: seq<string>, f: string -> string)
    ensures |Image(names, f)| <= |names|
  {
    if names != [] {
      var front := names[..|names| - 1];
      ImageCard(front, f);
      assert Image(names, f) == Image(front, f) + {f(names[|names| - 1])};
    } else {
      assert Image(names, f) == {};
    }
  }

  lemma {:induction false} SubsetCard(a: set<string>, b: set<string>)
    requires a <= b && |b| <= |a|
    ensures a == b
  {
    if a != b {
      assert !(b <= a);
      var x :| x in b && x !in a;
      SubsetCardLe(a, b - {x});
    }
  }

  lemma {:induction false} SubsetCardLe(a: set<string>, b: set<string>)
    requires a <= b
    ensures |a| <= |b|
    decreases |a|
  {
    if a != {} {
      var y :| y in a;
      SubsetCardLe(a - {y}, b - {y});
    }
  }
}
