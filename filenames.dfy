/**
 * The heading-to-filename transform shared, line for line, by
 * `book_builder/util.py`, `atomic_kotlin_builder/util.py` and
 * `atomic_kotlin_builder/epub.py`, the shorter chain of
 * `zzz_imported_tools/Disassemble.py`, and the regex-based variant of
 * `book_builder/renumber_atoms.py`.  Each chain of `str.replace` calls is
 * proved equal to a one-pass, character-by-character reference.
 */
module Filenames {

  import opened Text
  import opened Replacements

  // ---------------------------------------------------------------------------
  // The chain used by create_markdown_filename
  // ---------------------------------------------------------------------------

  /** The replacements applied after `": "` and `" "` became `_` and `.md` was appended. */
  const MarkdownChain: seq<Step> := [
    Step('&', "and"), Step('?', ""), Step('+', "P"), Step('/', ""), Step('-', "_"),
    Step('(', ""), Step(')', ""), Step('`', ""), Step(',', ""), Step('!', "")
  ]

  /** `create_markdown_filename(h1)` as the source writes it. */
  function MarkdownFilename(h1: string): (fn: string)
    ensures fn == SafeName(h1) + ".md"
  {
    var fn0 := Replace(Replace(h1, ": ", "_"), " ", "_") + ".md";
    MarkdownChainIsSafeName(h1);
    MarkdownSteps(fn0);
    MarkdownChainSteps(fn0)
  }

  /** The ten single-character replacements, in the order the source applies them. */
  function MarkdownChainSteps(fn: string): string {
    var fn := Replace(fn, "&", "and");
    var fn := Replace(fn, "?", "");
    var fn := Replace(fn, "+", "P");
    var fn := Replace(fn, "/", "");
    var fn := Replace(fn, "-", "_");
    var fn := Replace(fn, "(", "");
    var fn := Replace(fn, ")", "");
    var fn := Replace(fn, "`", "");
    var fn := Replace(fn, ",", "");
    Replace(fn, "!", "")
  }

  lemma {:induction false} MarkdownSteps(fn: string)
    ensures MarkdownChainSteps(fn) == ReplaceAll(fn, MarkdownChain)
  {
  }

  /** The filename ends in `.md` and holds no space, `&`, `?`, `+`, `/`, `-`, `(`, `)`, `` ` ``, `,` or `!`. */
  lemma {:induction false} MarkdownFilenameIsSafe(h1: string)
    ensures EndsWith(MarkdownFilename(h1), ".md")
    ensures forall i :: 0 <= i < |MarkdownFilename(h1)| ==> !Unsafe(MarkdownFilename(h1)[i])
  {
    SafeNameIsSafe(h1);
    SafeWithSuffix(SafeName(h1));
  }

  lemma {:induction false} SafeWithSuffix(name: string)
    requires forall i :: 0 <= i < |name| ==> !Unsafe(name[i])
    ensures var fn := name + ".md";
      EndsWith(fn, ".md") && forall i :: 0 <= i < |fn| ==> !Unsafe(fn[i])
  {
    var fn := name + ".md";
    assert fn[|fn| - 3..] == ".md";
    forall i | 0 <= i < |fn| ensures !Unsafe(fn[i]) {
      if i >= |name| {
        assert fn[i] == ".md"[i - |name|];
      } else {
        assert fn[i] == name[i];
      }
    }
  }

  /** The characters no generated Markdown filename contains. */
  predicate Unsafe(c: char) {
    c in {' ', '&', '?', '+', '/', '-', '(', ')', '`', ',', '!'}
  }

  /** What one heading character becomes in a filename. */
  function SafeChar(c: char): string {
    match c
    case ' ' => "_"
    case '-' => "_"
    case '&' => "and"
    case '+' => "P"
    case '?' => ""
    case '/' => ""
    case '(' => ""
    case ')' => ""
    case '`' => ""
    case ',' => ""
    case '!' => ""
    case _ => [c]
  }

  /** The reference: scan left to right; `": "` gives one `_`, anything else goes through SafeChar. */
  function SafeName(h: string): string
    decreases |h|
  {
    if h == [] then []
    else if |h| >= 2 && h[..2] == ": " then "_" + SafeName(h[2..])
    else SafeChar(h[0]) + SafeName(h[1..])
  }

  lemma {:induction false} SafeNameIsSafe(h: string)
    ensures forall i :: 0 <= i < |SafeName(h)| ==> !Unsafe(SafeName(h)[i])
    decreases |h|
  {
    if h != [] {
      if |h| >= 2 && h[..2] == ": " {
        SafeNameIsSafe(h[2..]);
      } else {
        SafeNameIsSafe(h[1..]);
      }
    }
  }

  // ---------------------------------------------------------------------------
  // The chain used by Disassemble.mdfilename
  // ---------------------------------------------------------------------------

  /** `-` is handled last here, and `` ` ``, `,` and `!` are kept. */
  const DisassembleChain: seq<Step> := [
    Step('&', "and"), Step('?', ""), Step('+', "P"), Step('/', ""),
    Step('(', ""), Step(')', ""), Step('-', "_")
  ]

  /** The body of `mdfilename(h1, n)` before the number prefix. */
  function DisassembleFilename(h1: string): (fn: string)
    ensures fn == KeepName(h1) + ".md"
    ensures EndsWith(fn, ".md")
  {
    var fn0 := Replace(Replace(h1, ": ", "_"), " ", "_") + ".md";
    DisassembleChainIsKeepName(h1);
    DisassembleSteps(fn0);
    DisassembleChainSteps(fn0)
  }

  /** The seven single-character replacements of `mdfilename`, in its order. */
  function DisassembleChainSteps(fn: string): string {
    var fn := Replace(fn, "&", "and");
    var fn := Replace(fn, "?", "");
    var fn := Replace(fn, "+", "P");
    var fn := Replace(fn, "/", "");
    var fn := Replace(fn, "(", "");
    var fn := Replace(fn, ")", "");
    Replace(fn, "-", "_")
  }

  lemma {:induction false} DisassembleSteps(fn: string)
    ensures DisassembleChainSteps(fn) == ReplaceAll(fn, DisassembleChain)
  {
  }

  /** SafeChar, except that `` ` ``, `,` and `!` survive. */
  function KeepChar(c: char): string {
    match c
    case '`' => "`"
    case ',' => ","
    case '!' => "!"
    case _ => SafeChar(c)
  }

  function KeepName(h: string): string
    decreases |h|
  {
    if h == [] then []
    else if |h| >= 2 && h[..2] == ": " then "_" + KeepName(h[2..])
    else KeepChar(h[0]) + KeepName(h[1..])
  }

  /** The two references differ exactly in the three characters the shorter chain keeps. */
  lemma {:induction false} KeepNameVersusSafeName(h: string)
    requires forall i :: 0 <= i < |h| ==> h[i] !in {'`', ',', '!'}
    ensures KeepName(h) == SafeName(h)
    decreases |h|
  {
    if h != [] {
      if |h| >= 2 && h[..2] == ": " {
        KeepNameVersusSafeName(h[2..]);
      } else {
        KeepNameVersusSafeName(h[1..]);
      }
    }
  }

  lemma {:induction false} KeepNameKeeps(c: char)
    requires c in {'`', ',', '!'}
    ensures KeepName([c]) == [c] && SafeName([c]) == []
  {
    assert KeepName([c]) == KeepChar(c) + KeepName([]);
    assert SafeName([c]) == SafeChar(c) + SafeName([]);
  }

  // ---------------------------------------------------------------------------
  // From the chains to the references
  // ---------------------------------------------------------------------------

  /** The whole pipeline after `": "` has become `_`. */
  function SpaceThen(x: string, chain: seq<Step>): string {
    ReplaceAll(Replace(x, " ", "_"), chain)
  }

  predicate Untouched(s: string, chain: seq<Step>) {
    forall i :: 0 <= i < |s| ==> !Touches(chain, s[i])
  }

  lemma {:induction false} SpaceThenConcat(a: string, b: string, chain: seq<Step>)
    ensures SpaceThen(a + b, chain) == SpaceThen(a, chain) + SpaceThen(b, chain)
  {
    ReplaceConcat(a, b, ' ', "_");
    ReplaceAllConcat(Replace(a, " ", "_"), Replace(b, " ", "_"), chain);
  }

  lemma {:induction false} SpaceThenChar(c: char, chain: seq<Step>)
    requires Closed(chain) && Untouched("_", chain)
    ensures SpaceThen([c], chain) == if c == ' ' then "_" else Lookup(c, chain)
  {
    ReplaceSingle(c, ' ', "_");
    if c == ' ' {
      ReplaceAllUntouched("_", chain);
    } else {
      ReplaceAllChar(c, chain);
    }
  }

  /** The generic reference for a chain: `": "` gives `_`, space gives `_`, the rest is looked up. */
  function ChainName(h: string, chain: seq<Step>): string
    decreases |h|
  {
    if h == [] then []
    else if |h| >= 2 && h[..2] == ": " then "_" + ChainName(h[2..], chain)
    else (if h[0] == ' ' then "_" else Lookup(h[0], chain)) + ChainName(h[1..], chain)
  }

  lemma {:induction false} ChainNameCorrect(h: string, chain: seq<Step>)
    requires Closed(chain) && Untouched("_", chain)
    ensures SpaceThen(Replace(h, ": ", "_"), chain) == ChainName(h, chain)
    decreases |h|
  {
    if |h| < 2 {
      if h == [] {
        ReplaceAllUntouched([], chain);
      } else {
        assert Replace(h, ": ", "_") == h == [h[0]];
        SpaceThenChar(h[0], chain);
        assert ChainName(h, chain) == (if h[0] == ' ' then "_" else Lookup(h[0], chain)) + ChainName([], chain);
      }
    } else if h[..2] == ": " {
      assert Replace(h, ": ", "_") == "_" + Replace(h[2..], ": ", "_");
      SpaceThenConcat("_", Replace(h[2..], ": ", "_"), chain);
      SpaceThenChar('_', chain);
      assert Lookup('_', chain) == "_" by {
        LookupUntouched('_', chain);
      }
      ChainNameCorrect(h[2..], chain);
    } else {
      assert Replace(h, ": ", "_") == [h[0]] + Replace(h[1..], ": ", "_");
      SpaceThenConcat([h[0]], Replace(h[1..], ": ", "_"), chain);
      SpaceThenChar(h[0], chain);
      ChainNameCorrect(h[1..], chain);
    }
  }

  lemma {:induction false} LookupUntouched(c: char, chain: seq<Step>)
    requires !Touches(chain, c)
    ensures Lookup(c, chain) == [c]
    decreases |chain|
  {
    if chain != [] {
      assert chain[0].c != c;
      assert !Touches(chain[1..], c) by {
        forall k | 0 <= k < |chain[1..]| ensures chain[1..][k].c != c {
          assert chain[1..][k] == chain[k + 1];
        }
      }
      LookupUntouched(c, chain[1..]);
    }
  }

  /** The full pipeline equals the chain's reference followed by `.md`. */
  lemma {:induction false} ChainFilename(h: string, chain: seq<Step>)
    requires Closed(chain) && Untouched("_", chain) && Untouched(".md", chain)
    ensures ReplaceAll(Replace(Replace(h, ": ", "_"), " ", "_") + ".md", chain) == ChainName(h, chain) + ".md"
  {
    var x := Replace(Replace(h, ": ", "_"), " ", "_");
    ReplaceAllConcat(x, ".md", chain);
    ReplaceAllUntouched(".md", chain);
    ChainNameCorrect(h, chain);
  }

  lemma MarkdownChainClosed()
    ensures Closed(MarkdownChain)
  {
    MarkdownChainChars();
  }

  lemma MarkdownChainUntouched()
    ensures Untouched("_", MarkdownChain) && Untouched(".md", MarkdownChain)
  {
    MarkdownChainChars();
  }

  lemma {:induction false} MarkdownChainFacts()
    ensures Closed(MarkdownChain) && Untouched("_", MarkdownChain) && Untouched(".md", MarkdownChain)
    ensures forall c :: c != ' ' ==> Lookup(c, MarkdownChain) == SafeChar(c)
  {
    MarkdownChainClosed();
    MarkdownChainUntouched();
    forall c | c != ' ' ensures Lookup(c, MarkdownChain) == SafeChar(c) {
      MarkdownLookup(c);
    }
  }

  lemma {:induction false} MarkdownLookup(c: char)
    requires c != ' '
    ensures Lookup(c, MarkdownChain) == SafeChar(c)
  {
    MarkdownChainChars();
    if c == '&' { LookupFound(c, MarkdownChain, 0); }
    else if c == '?' { LookupFound(c, MarkdownChain, 1); }
    else if c == '+' { LookupFound(c, MarkdownChain, 2); }
    else if c == '/' { LookupFound(c, MarkdownChain, 3); }
    else if c == '-' { LookupFound(c, MarkdownChain, 4); }
    else if c == '(' { LookupFound(c, MarkdownChain, 5); }
    else if c == ')' { LookupFound(c, MarkdownChain, 6); }
    else if c == '`' { LookupFound(c, MarkdownChain, 7); }
    else if c == ',' { LookupFound(c, MarkdownChain, 8); }
    else if c == '!' { LookupFound(c, MarkdownChain, 9); }
    else { LookupUntouched(c, MarkdownChain); }
  }

  lemma MarkdownChainChars()
    ensures |MarkdownChain| == 10
    ensures MarkdownChain[0].c == '&' && MarkdownChain[1].c == '?' && MarkdownChain[2].c == '+'
    ensures MarkdownChain[3].c == '/' && MarkdownChain[4].c == '-' && MarkdownChain[5].c == '('
    ensures MarkdownChain[6].c == ')' && MarkdownChain[7].c == '`' && MarkdownChain[8].c == ','
    ensures MarkdownChain[9].c == '!'
  {
  }

  lemma DisassembleChainClosed()
    ensures Closed(DisassembleChain)
  {
    DisassembleChainChars();
  }

  lemma DisassembleChainUntouched()
    ensures Untouched("_", DisassembleChain) && Untouched(".md", DisassembleChain)
  {
    DisassembleChainChars();
  }

  lemma {:induction false} DisassembleChainFacts()
    ensures Closed(DisassembleChain) && Untouched("_", DisassembleChain) && Untouched(".md", DisassembleChain)
    ensures forall c :: c != ' ' ==> Lookup(c, DisassembleChain) == KeepChar(c)
  {
    DisassembleChainClosed();
    DisassembleChainUntouched();
    forall c | c != ' ' ensures Lookup(c, DisassembleChain) == KeepChar(c) {
      DisassembleLookup(c);
    }
  }

  lemma DisassembleChainChars()
    ensures |DisassembleChain| == 7
    ensures DisassembleChain[0].c == '&' && DisassembleChain[1].c == '?' && DisassembleChain[2].c == '+'
    ensures DisassembleChain[3].c == '/' && DisassembleChain[4].c == '(' && DisassembleChain[5].c == ')'
    ensures DisassembleChain[6].c == '-'
  {
  }

  lemma {:induction false} DisassembleLookup(c: char)
    requires c != ' '
    ensures Lookup(c, DisassembleChain) == KeepChar(c)
  {
    if c == '&' { assert Lookup('&', DisassembleChain) == "and"; }
    else if c == '?' { assert Lookup('?', DisassembleChain) == ""; }
    else if c == '+' { assert Lookup('+', DisassembleChain) == "P"; }
    else if c == '/' { assert Lookup('/', DisassembleChain) == ""; }
    else if c == '(' { assert Lookup('(', DisassembleChain) == ""; }
    else if c == ')' { assert Lookup(')', DisassembleChain) == ""; }
    else if c == '-' { assert Lookup('-', DisassembleChain) == "_"; }
    else if c == '`' || c == ',' || c == '!' { LookupUntouched(c, DisassembleChain); }
    else {
      assert KeepChar(c) == SafeChar(c) == [c];
      LookupUntouched(c, DisassembleChain);
    }
  }

  lemma {:induction false} ChainNameIs(h: string, chain: seq<Step>, f: char -> string)
    requires f(' ') == "_"
    requires forall c :: c != ' ' ==> Lookup(c, chain) == f(c)
    ensures ChainName(h, chain) == RefName(h, f)
    decreases |h|
  {
    if h != [] {
      if |h| >= 2 && h[..2] == ": " {
        ChainNameIs(h[2..], chain, f);
      } else {
        ChainNameIs(h[1..], chain, f);
      }
    }
  }

  function RefName(h: string, f: char -> string): string
    decreases |h|
  {
    if h == [] then []
    else if |h| >= 2 && h[..2] == ": " then "_" + RefName(h[2..], f)
    else f(h[0]) + RefName(h[1..], f)
  }

  lemma {:induction false} RefNameSafe(h: string)
    ensures RefName(h, SafeChar) == SafeName(h)
    decreases |h|
  {
    if h != [] {
      if |h| >= 2 && h[..2] == ": " {
        RefNameSafe(h[2..]);
      } else {
        RefNameSafe(h[1..]);
      }
    }
  }

  lemma {:induction false} RefNameKeep(h: string)
    ensures RefName(h, KeepChar) == KeepName(h)
    decreases |h|
  {
    if h != [] {
      if |h| >= 2 && h[..2] == ": " {
        RefNameKeep(h[2..]);
      } else {
        RefNameKeep(h[1..]);
      }
    }
  }

  lemma {:induction false} MarkdownChainIsSafeName(h: string)
    ensures ReplaceAll(Replace(Replace(h, ": ", "_"), " ", "_") + ".md", MarkdownChain) == SafeName(h) + ".md"
  {
    MarkdownChainFacts();
    ChainFilename(h, MarkdownChain);
    ChainNameIs(h, MarkdownChain, SafeChar);
    RefNameSafe(h);
  }

  lemma {:induction false} DisassembleChainIsKeepName(h: string)
    ensures ReplaceAll(Replace(Replace(h, ": ", "_"), " ", "_") + ".md", DisassembleChain) == KeepName(h) + ".md"
  {
    DisassembleChainFacts();
    ChainFilename(h, DisassembleChain);
    ChainNameIs(h, DisassembleChain, KeepChar);
    RefNameKeep(h);
  }
}
