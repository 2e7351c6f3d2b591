/**
 * `book_builder/renumber_atoms.py`: every atom's filename is regenerated
 * from its first line and its position, and the files whose names changed
 * are renamed, last first.
 */
module RenumberAtoms {

  import opened Results
  import opened Text
  import opened Numerals

  // ---------------------------------------------------------------------------
  // generate_name
  // ---------------------------------------------------------------------------

  /** The characters of the pattern `` `|:|!|, ``. */
  predicate Mark(c: char) {
    c == '`' || c == ':' || c == '!' || c == ','
  }

  /** `re.sub('`|:|!|,', '', title)`: every one of those characters is deleted. */
  function RemoveMarks(s: string): (r: string)
    ensures |r| <= |s|
  {
    if s == [] then [] else (if Mark(s[0]) then [] else [s[0]]) + RemoveMarks(s[1..])
  }

  /** The three `str.replace` calls that follow the regex, in the source's order. */
  function ReplaceChain(s: string): string {
    var t := Replace(s, "&", "and");
    var t := Replace(t, "-", "_");
    Replace(t, " ", "_")
  }

  /** The title as it appears in the generated filename. */
  function TitlePart(title: string): string {
    ReplaceChain(RemoveMarks(title))
  }

  /**
   * `generate_name(n, atom)`: the three-digit number, `_`, the transformed
   * first line and `.md`.  An empty atom has no first line: IndexError.
   */
  function GenerateName(n: nat, atomText: string): (r: Result<string, string>)
    ensures r.Err? <==> atomText == []
    ensures r.Err? ==> r.error == "IndexError"
  {
    var lines := SplitLines(atomText);
    if lines == [] then Err("IndexError")
    else Ok(ZeroPad(n, 3) + "_" + TitlePart(lines[0]) + ".md")
  }

  /** What the whole transform does to one character of the title. */
  function TitleChar(c: char): string {
    if Mark(c) then ""
    else if c == '&' then "and"
    else if c == '-' || c == ' ' then "_"
    else [c]
  }

  /** The reference: the title transformed one character at a time. */
  function TitleName(h: string): string {
    if h == [] then [] else TitleChar(h[0]) + TitleName(h[1..])
  }

  lemma {:induction false} ReplaceChainConcat(a: string, b: string)
    ensures ReplaceChain(a + b) == ReplaceChain(a) + ReplaceChain(b)
  {
    ReplaceConcat(a, b, '&', "and");
    var a1, b1 := Replace(a, "&", "and"), Replace(b, "&", "and");
    ReplaceConcat(a1, b1, '-', "_");
    var a2, b2 := Replace(a1, "-", "_"), Replace(b1, "-", "_");
    ReplaceConcat(a2, b2, ' ', "_");
  }

  lemma {:induction false} ReplaceChainChar(c: char)
    requires !Mark(c)
    ensures ReplaceChain([c]) == TitleChar(c)
  {
    ReplaceSingle(c, '&', "and");
    if c == '&' {
      ReplaceNothing("and", '-', "_");
      ReplaceNothing("and", ' ', "_");
    } else {
      ReplaceSingle(c, '-', "_");
      if c == '-' {
        ReplaceNothing("_", ' ', "_");
      } else {
        ReplaceSingle(c, ' ', "_");
      }
    }
  }

  /** The regex and the replacement chain together are the one-character-at-a-time transform. */
  lemma {:induction false} TitlePartIsTitleName(h: string)
    ensures TitlePart(h) == TitleName(h)
  {
    if h != [] {
      var c := h[0];
      var head := if Mark(c) then [] else [c];
      assert RemoveMarks(h) == head + RemoveMarks(h[1..]);
      ReplaceChainConcat(head, RemoveMarks(h[1..]));
      TitlePartIsTitleName(h[1..]);
      if Mark(c) {
        assert ReplaceChain([]) == [];
      } else {
        ReplaceChainChar(c);
      }
    }
  }

  /** No `` ` ``, `:`, `!`, `,`, `&`, `-` or space survives in the title part. */
  lemma {:induction false} TitleNameClean(h: string)
    ensures forall i :: 0 <= i < |TitleName(h)| ==>
      var c := TitleName(h)[i]; !Mark(c) && c != '&' && c != '-' && c != ' '
  {
    if h != [] {
      TitleNameClean(h[1..]);
      var t := TitleChar(h[0]);
      assert forall i :: 0 <= i < |t| ==> var c := t[i]; !Mark(c) && c != '&' && c != '-' && c != ' ';
    }
  }

  /**
   * A non-empty atom at a position below 1000 gets exactly three digits that
   * read back as its position, `_`, its first line transformed one character
   * at a time, and `.md`.
   */
  lemma {:induction false} GenerateNameLayout(n: nat, atomText: string)
    requires n < 1000 && atomText != []
    ensures var fn := GenerateName(n, atomText).value; var title := TitleName(SplitLines(atomText)[0]);
      |fn| == 3 + 1 + |title| + 3 && AllDigits(fn[..3]) && Value(fn[..3]) == n &&
      fn[3..] == "_" + title + ".md"
  {
    var title := SplitLines(atomText)[0];
    TitlePartIsTitleName(title);
    assert Pow10(3) == 1000;
    ZeroPadWidth(n, 3);
    var p, rest := ZeroPad(n, 3), TitlePart(title) + ".md";
    assert GenerateName(n, atomText).value == p + "_" + rest;
    PaddedParts(n, 3, rest);
  }

  // ---------------------------------------------------------------------------
  // title_list
  // ---------------------------------------------------------------------------

  /**
   * The [current name, generated name] pairs of `mds`, numbering from `n`
   * with `gen`; the first failing name raises.
   */
  function Titles(mds: seq<(string, string)>, n: nat, gen: (nat, string) -> Result<string, string>)
    : (r: Result<seq<(string, string)>, string>)
    ensures r.Ok? ==> |r.value| == |mds|
  {
    if mds == [] then Ok([])
    else
      match gen(n, mds[0].1)
      case Err(e) => Err(e)
      case Ok(g) =>
        match Titles(mds[1..], n + 1, gen)
        case Err(e) => Err(e)
        case Ok(rest) => Ok([(mds[0].0, g)] + rest)
  }

  /**
   * `title_list()`, given the atoms as (file name, text) in directory
   * order: the pairs for every atom but the first.
   */
  function TitleList(mds: seq<(string, string)>): Result<seq<(string, string)>, string> {
    match Titles(mds, 0, GenerateName)
    case Err(e) => Err(e)
    case Ok(ts) => Ok(if ts == [] then [] else ts[1..])
  }

  /** The pairs exist exactly when every name can be generated. */
  lemma {:induction false} TitlesOk(mds: seq<(string, string)>, n: nat, gen: (nat, string) -> Result<string, string>)
    ensures Titles(mds, n, gen).Ok? <==> forall i :: 0 <= i < |mds| ==> gen(n + i, mds[i].1).Ok?
  {
    if mds != [] {
      TitlesOk(mds[1..], n + 1, gen);
      assert forall i :: 1 <= i < |mds| ==> mds[1..][i - 1] == mds[i] && n + 1 + (i - 1) == n + i;
    }
  }

  /** Each atom is paired with the name generated for its number. */
  lemma {:induction false} TitlesValue(mds: seq<(string, string)>, n: nat, gen: (nat, string) -> Result<string, string>)
    requires Titles(mds, n, gen).Ok?
    ensures forall i :: 0 <= i < |mds| ==>
      Titles(mds, n, gen).value[i].0 == mds[i].0 && gen(n + i, mds[i].1) == Ok(Titles(mds, n, gen).value[i].1)
  {
    if mds != [] {
      var tail := mds[1..];
      TitlesValue(tail, n + 1, gen);
      var rest := Titles(tail, n + 1, gen).value;
      var ts := Titles(mds, n, gen).value;
      assert ts == [(mds[0].0, gen(n, mds[0].1).value)] + rest;
      forall i | 1 <= i < |mds|
        ensures ts[i].0 == mds[i].0 && gen(n + i, mds[i].1) == Ok(ts[i].1)
      {
        assert ts[i] == rest[i - 1];
        assert tail[i - 1] == mds[i];
        assert n + 1 + (i - 1) == n + i;
      }
    }
  }

  /** The list fails, with IndexError, exactly when some atom, the first included, is empty. */
  lemma TitleListOk(mds: seq<(string, string)>)
    ensures TitleList(mds).Ok? <==> forall i :: 0 <= i < |mds| ==> mds[i].1 != []
    ensures TitleList(mds).Err? ==> TitleList(mds).error == "IndexError"
  {
    TitlesOk(mds, 0, GenerateName);
    forall i | 0 <= i < |mds|
      ensures GenerateName(0 + i, mds[i].1).Ok? <==> mds[i].1 != []
    {
    }
    if Titles(mds, 0, GenerateName).Err? {
      TitlesError(mds, 0);
    }
  }

  /**
   * The list drops the first atom (the front matter), so the atom at
   * directory position `i + 1` is entry `i` and is numbered `i + 1`.
   */
  lemma TitleListValue(mds: seq<(string, string)>)
    requires TitleList(mds).Ok?
    ensures var ts := TitleList(mds).value;
      |ts| == (if mds == [] then 0 else |mds| - 1) &&
      forall i :: 0 <= i < |ts| ==> ts[i].0 == mds[i + 1].0 && GenerateName(i + 1, mds[i + 1].1) == Ok(ts[i].1)
  {
    TitlesValue(mds, 0, GenerateName);
    var all := Titles(mds, 0, GenerateName).value;
    if all != [] {
      var ts := TitleList(mds).value;
      assert ts == all[1..];
      forall i | 0 <= i < |ts|
        ensures ts[i].0 == mds[i + 1].0 && GenerateName(i + 1, mds[i + 1].1) == Ok(ts[i].1)
      {
        assert ts[i] == all[i + 1];
      }
    }
  }

  lemma {:induction false} TitlesError(mds: seq<(string, string)>, n: nat)
    requires Titles(mds, n, GenerateName).Err?
    ensures Titles(mds, n, GenerateName).error == "IndexError"
  {
    if mds != [] && GenerateName(n, mds[0].1).Ok? {
      TitlesError(mds[1..], n + 1);
    }
  }

  // ---------------------------------------------------------------------------
  // rename_atoms
  // ---------------------------------------------------------------------------

  /** The renames performed for `titles`: the differing pairs, last first. */
  function Renames(titles: seq<(string, string)>): seq<(string, string)> {
    if titles == [] then []
    else Renames(titles[1..]) + (if titles[0].0 != titles[0].1 then [titles[0]] else [])
  }

  /** `rename_atoms(titles)`: the (old, new) renames in the order they are made. */
  method RenameAtoms(titles: seq<(string, string)>) returns (renames: seq<(string, string)>)
    ensures renames == Renames(titles)
  {
    renames := [];
    var i := |titles|;
    while i > 0
      invariant 0 <= i <= |titles|
      invariant renames == Renames(titles[i..])
    {
      i := i - 1;
      var t := titles[i];
      assert titles[i..][1..] == titles[i + 1..];
      if t.0 != t.1 {
        renames := renames + [t];
      }
    }
  }

  /** A pair is renamed exactly when it is listed and its names differ. */
  lemma {:induction false} RenamesMembers(titles: seq<(string, string)>, t: (string, string))
    ensures t in Renames(titles) <==> t in titles && t.0 != t.1
  {
    if titles != [] {
      RenamesMembers(titles[1..], t);
      assert titles == [titles[0]] + titles[1..];
    }
  }

  /** The last pair is renamed before all the others. */
  lemma {:induction false} RenamesLastFirst(titles: seq<(string, string)>, t: (string, string))
    ensures Renames(titles + [t]) == (if t.0 != t.1 then [t] else []) + Renames(titles)
  {
    if titles == [] {
      assert [t][1..] == [];
    } else {
      assert (titles + [t])[1..] == titles[1..] + [t];
      RenamesLastFirst(titles[1..], t);
    }
  }
}
