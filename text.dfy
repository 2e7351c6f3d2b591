/**
 * The Python `str` operations the book tools are built from: strip, startswith,
 * `in`, find, split, splitlines, join, replace and center. Characters are Dafny
 * chars; the character classes (whitespace, digits, letters) are the ASCII ones.
 */
module Text {

  import opened Results

  // ---------------------------------------------------------------------------
  // Character classes
  // ---------------------------------------------------------------------------

  /** The ASCII characters Python's `str.strip()` and `str.split()` treat as whitespace. */
  predicate IsSpace(c: char) {
    c == ' ' || c == '\t' || c == '\n' || c == '\r' || c == '\U{B}' || c == '\U{C}' || '\U{1C}' <= c <= '\U{1F}'
  }

  predicate IsDigit(c: char) { '0' <= c <= '9' }

  predicate IsLower(c: char) { 'a' <= c <= 'z' }

  predicate IsUpper(c: char) { 'A' <= c <= 'Z' }

  predicate IsAlpha(c: char) { IsLower(c) || IsUpper(c) }

  function ToLowerChar(c: char): (r: char)
    ensures !IsUpper(r)
    ensures IsUpper(c) || r == c
  {
    if IsUpper(c) then (c as int - 'A' as int + 'a' as int) as char else c
  }

  function ToUpperChar(c: char): (r: char)
    ensures !IsLower(r)
    ensures IsLower(c) || r == c
  {
    if IsLower(c) then (c as int - 'a' as int + 'A' as int) as char else c
  }

  /** `s.lower()` */
  function Lower(s: string): (r: string)
    ensures |r| == |s|
    ensures forall i :: 0 <= i < |s| ==> r[i] == ToLowerChar(s[i])
  {
    if s == [] then [] else [ToLowerChar(s[0])] + Lower(s[1..])
  }

  /** `s.capitalize()`: first character upper case, the others lower case. */
  function Capitalize(s: string): (r: string)
    ensures |r| == |s|
    ensures s != [] ==> r[0] == ToUpperChar(s[0]) && r[1..] == Lower(s[1..])
  {
    if s == [] then [] else [ToUpperChar(s[0])] + Lower(s[1..])
  }

  // ---------------------------------------------------------------------------
  // Prefixes, suffixes, substrings
  // ---------------------------------------------------------------------------

  /** `s.startswith(p)` */
  predicate StartsWith(s: string, p: string) { |p| <= |s| && s[..|p|] == p }

  /** `s.endswith(p)` */
  predicate EndsWith(s: string, p: string) { |p| <= |s| && s[|s| - |p|..] == p }

  predicate OccursAt(s: string, sub: string, i: int) {
    0 <= i && i + |sub| <= |s| && s[i..i + |sub|] == sub
  }

  /** `sub in s` */
  predicate Contains(s: string, sub: string) {
    exists i | 0 <= i <= |s| - |sub| :: OccursAt(s, sub, i)
  }

  /** `s.find(sub)`: the first occurrence, or -1. */
  function Find(s: string, sub: string): (r: int)
    ensures r == -1 || 0 <= r <= |s| - |sub|
    ensures r == -1 <==> !Contains(s, sub)
    ensures r >= 0 ==> OccursAt(s, sub, r)
    ensures forall j :: 0 <= j < r ==> !OccursAt(s, sub, j)
    decreases |s|
  {
    if |s| < |sub| then -1
    else if s[..|sub|] == sub then assert OccursAt(s, sub, 0); 0
    else
      var k := Find(s[1..], sub);
      assert forall j :: 0 < j <= |s| - |sub| ==> (OccursAt(s, sub, j) <==> OccursAt(s[1..], sub, j - 1));
      assert !OccursAt(s, sub, 0);
      if k < 0 then -1 else assert OccursAt(s, sub, k + 1); k + 1
  }

  lemma {:induction false} ContainsAt(s: string, sub: string, i: int)
    requires OccursAt(s, sub, i)
    ensures Contains(s, sub)
  {
  }

  lemma {:induction false} ContainsChar(s: string, c: char)
    ensures Contains(s, [c]) <==> c in s
  {
    if c in s {
      var i :| 0 <= i < |s| && s[i] == c;
      assert OccursAt(s, [c], i);
    }
    if Contains(s, [c]) {
      var i :| 0 <= i <= |s| - 1 && OccursAt(s, [c], i);
      assert s[i] == s[i..i + 1][0] == c;
    }
  }

  /** No character before the first occurrence of `c` is `c`. */
  lemma {:induction false} FindCharPrefix(s: string, c: char)
    ensures var k := Find(s, [c]); c !in (if k < 0 then s else s[..k])
  {
    var k := Find(s, [c]);
    ContainsChar(s, c);
    if k >= 0 {
      forall j | 0 <= j < k ensures s[j] != c {
        assert !OccursAt(s, [c], j);
        assert s[j..j + 1] == [s[j]];
      }
    }
  }

  lemma {:induction false} StartsWithContains(s: string, p: string)
    requires StartsWith(s, p)
    ensures Contains(s, p)
  {
    assert OccursAt(s, p, 0);
  }

  /** Whatever contains `sub` contains every prefix of it. */
  lemma {:induction false} ContainsPrefix(s: string, sub: string, p: string)
    requires Contains(s, sub) && StartsWith(sub, p)
    ensures Contains(s, p)
  {
    var i :| 0 <= i <= |s| - |sub| && OccursAt(s, sub, i);
    assert s[i..i + |p|] == sub[..|p|];
    ContainsAt(s, p, i);
  }

  lemma {:induction false} ContainsConcat(a: string, b: string, sub: string)
    requires Contains(a, sub) || Contains(b, sub)
    ensures Contains(a + b, sub)
  {
    if Contains(a, sub) {
      var i :| 0 <= i <= |a| - |sub| && OccursAt(a, sub, i);
      assert (a + b)[i..i + |sub|] == a[i..i + |sub|];
      assert OccursAt(a + b, sub, i);
    } else {
      var i :| 0 <= i <= |b| - |sub| && OccursAt(b, sub, i);
      assert (a + b)[|a| + i..|a| + i + |sub|] == b[i..i + |sub|];
      assert OccursAt(a + b, sub, |a| + i);
    }
  }

  /** Containment is transitive. */
  lemma {:induction false} ContainsTrans(s: string, mid: string, sub: string)
    requires Contains(s, mid) && Contains(mid, sub)
    ensures Contains(s, sub)
  {
    var i :| 0 <= i <= |s| - |mid| && OccursAt(s, mid, i);
    var j :| 0 <= j <= |mid| - |sub| && OccursAt(mid, sub, j);
    DropSlice(s[..i + |mid|], i, j, |sub|);
    assert s[i + j..i + j + |sub|] == s[..i + |mid|][i + j..i + j + |sub|];
    ContainsAt(s, sub, i + j);
  }

  /** What a suffix contains, the whole contains. */
  lemma {:induction false} ContainsDrop(s: string, k: nat, sub: string)
    requires k <= |s| && Contains(s[k..], sub)
    ensures Contains(s, sub)
  {
    var j :| 0 <= j <= |s[k..]| - |sub| && OccursAt(s[k..], sub, j);
    assert s[k + j..k + j + |sub|] == s[k..][j..j + |sub|];
    ContainsAt(s, sub, k + j);
  }

  // ---------------------------------------------------------------------------
  // Stripping
  // ---------------------------------------------------------------------------

  /** The number of whitespace characters `s.lstrip()` removes. */
  function LeadingWhitespace(s: string): (k: nat)
    ensures k <= |s|
  {
    if s != [] && IsSpace(s[0]) then 1 + LeadingWhitespace(s[1..]) else 0
  }

  /** `s.lstrip()` removes whitespace and stops at the first other character. */
  lemma {:induction false} LeadingWhitespaceSpec(s: string)
    ensures var k := LeadingWhitespace(s);
      (forall i :: 0 <= i < k ==> IsSpace(s[i])) && (k < |s| ==> !IsSpace(s[k]))
  {
    if s != [] && IsSpace(s[0]) {
      LeadingWhitespaceSpec(s[1..]);
    }
  }

  /** The length `s.rstrip()` keeps. */
  function TrailingStart(s: string): (k: nat)
    ensures k <= |s|
  {
    if s != [] && IsSpace(s[|s| - 1]) then TrailingStart(s[..|s| - 1]) else |s|
  }

  /** `s.rstrip()` removes whitespace and stops at the last other character. */
  lemma {:induction false} TrailingStartSpec(s: string)
    ensures var k := TrailingStart(s);
      (forall i :: k <= i < |s| ==> IsSpace(s[i])) && (k > 0 ==> !IsSpace(s[k - 1]))
  {
    if s != [] && IsSpace(s[|s| - 1]) {
      TrailingStartSpec(s[..|s| - 1]);
    }
  }

  /** `s.lstrip()` */
  function LStrip(s: string): string {
    s[LeadingWhitespace(s)..]
  }

  /** `s.rstrip()` */
  function RStrip(s: string): string {
    s[..TrailingStart(s)]
  }

  /** `s.strip()` */
  function Strip(s: string): string {
    RStrip(LStrip(s))
  }

  /** The stripped text neither starts nor ends with whitespace. */
  lemma {:induction false} StripEnds(s: string)
    ensures var r := Strip(s); r == [] || (!IsSpace(r[0]) && !IsSpace(r[|r| - 1]))
  {
    var l := LStrip(s);
    var r := RStrip(l);
    LeadingWhitespaceSpec(s);
    TrailingStartSpec(l);
    assert r != [] ==> r[0] == l[0];
  }

  /** The text of a string that has no surrounding whitespace is all of it. */
  lemma {:induction false} StripUnchanged(s: string)
    requires s == [] || (!IsSpace(s[0]) && !IsSpace(s[|s| - 1]))
    ensures LStrip(s) == s && RStrip(s) == s && Strip(s) == s
  {
  }

  /** A string strips to nothing exactly when it is all whitespace. */
  lemma {:induction false} StripBlank(s: string)
    ensures Strip(s) == [] <==> forall i :: 0 <= i < |s| ==> IsSpace(s[i])
  {
    var l := LStrip(s);
    LeadingWhitespaceSpec(s);
    TrailingStartSpec(l);
    assert forall i :: |s| - |l| <= i < |s| ==> s[i] == l[i - (|s| - |l|)];
  }

  /** A string strips to nothing exactly when `lstrip` alone consumes all of it. */
  lemma {:induction false} StripEmptyIff(s: string)
    ensures Strip(s) == [] <==> LeadingWhitespace(s) == |s|
  {
    StripBlank(s);
    LeadingWhitespaceSpec(s);
  }

  /** Stripping only ever removes whitespace from the ends: `s` is `Strip(s)` with a whitespace frame. */
  lemma {:induction false} StripFrame(s: string) returns (a: nat)
    ensures a + |Strip(s)| <= |s| && s[a..a + |Strip(s)|] == Strip(s)
    ensures forall i :: 0 <= i < a ==> IsSpace(s[i])
    ensures forall i :: a + |Strip(s)| <= i < |s| ==> IsSpace(s[i])
  {
    var l := LStrip(s);
    LeadingWhitespaceSpec(s);
    TrailingStartSpec(l);
    a := |s| - |l|;
    var r := RStrip(l);
    assert r == Strip(s);
    assert s[a..a + |r|] == l[..|r|];
    forall i | a + |r| <= i < |s| ensures IsSpace(s[i]) {
      assert s[i] == l[i - a];
    }
  }

  /** The number of leading spaces: `len(s) - len(s.lstrip(' '))`. */
  function LeadingSpaces(s: string): (k: nat)
    ensures k <= |s|
  {
    if s != [] && s[0] == ' ' then 1 + LeadingSpaces(s[1..]) else 0
  }

  /** The count is of the longest run of spaces that opens `s`. */
  lemma {:induction false} LeadingSpacesRun(s: string)
    ensures var k := LeadingSpaces(s); (forall i :: 0 <= i < k ==> s[i] == ' ') && (k == |s| || s[k] != ' ')
  {
    if s != [] && s[0] == ' ' {
      LeadingSpacesRun(s[1..]);
    }
  }

  // ---------------------------------------------------------------------------
  // Lines
  // ---------------------------------------------------------------------------

  /** The index of the first `c` in `s`, or `|s|` when there is none. */
  function IndexOfChar(s: string, c: char): (r: nat)
    ensures r <= |s|
    ensures forall i :: 0 <= i < r ==> s[i] != c
    ensures r < |s| ==> s[r] == c
  {
    if s == [] then 0 else if s[0] == c then 0 else 1 + IndexOfChar(s[1..], c)
  }

  /**
   * `s.splitlines()` with '\n' as the line terminator: a final terminator does
   * not open an empty last line, and the empty text has no lines.
   */
  function SplitLines(s: string): (ls: seq<string>)
    ensures ls == [] <==> s == []
    decreases |s|
  {
    if s == [] then []
    else
      var i := IndexOfChar(s, '\n');
      if i == |s| then [s] else [s[..i]] + SplitLines(s[i + 1..])
  }

  /** The first line of a text runs up to the first break. */
  lemma SplitLinesHead(s: string)
    requires s != []
    ensures SplitLines(s)[0] == s[..IndexOfChar(s, '\n')]
  {
  }

  /** The lines after the first are the lines of what follows the first break, at `i`. */
  lemma SplitLinesTail(s: string) returns (i: nat)
    requires |SplitLines(s)| > 1
    ensures i < |s| && s[i] == '\n' && '\n' !in s[..i]
    ensures SplitLines(s)[1..] == SplitLines(s[i + 1..])
  {
    i := IndexOfChar(s, '\n');
    ConsTail([s[..i]], SplitLines(s[i + 1..]));
  }

  /** A line of a text occurs in it. */
  lemma SplitLinesContained(s: string, l: string)
    requires l in SplitLines(s)
    ensures Contains(s, l)
  {
    var j :| 0 <= j < |SplitLines(s)| && SplitLines(s)[j] == l;
    var k := LineOffset(s, j);
    ContainsAt(s, l, k);
  }

  /** Where line `j` of a text sits in it. */
  lemma {:induction false} LineOffset(s: string, j: nat) returns (k: nat)
    requires j < |SplitLines(s)|
    ensures OccursAt(s, SplitLines(s)[j], k)
    decreases |s|
  {
    if j == 0 {
      SplitLinesHead(s);
      k := 0;
    } else {
      var i := SplitLinesTail(s);
      var m := LineOffset(s[i + 1..], j - 1);
      LineOffsetStep(SplitLines(s), s, i, j, m);
      k := i + 1 + m;
    }
  }

  /** A line after the first sits one break past its place in the rest of the text. */
  lemma LineOffsetStep(lines: seq<string>, s: string, i: nat, j: nat, m: nat)
    requires 0 < j < |lines| && i < |s|
    requires OccursAt(s[i + 1..], lines[1..][j - 1], m)
    ensures OccursAt(s, lines[j], i + 1 + m)
  {
    TailIndex(lines, j);
    DropSlice(s, i + 1, m, |lines[j]|);
  }

  /** No line holds a line break. */
  lemma {:induction false} SplitLinesNoBreaks(s: string)
    ensures forall i :: 0 <= i < |SplitLines(s)| ==> '\n' !in SplitLines(s)[i]
    decreases |s|
  {
    if s != [] {
      var i := IndexOfChar(s, '\n');
      if i < |s| {
        SplitLinesNoBreaks(s[i + 1..]);
        assert '\n' !in s[..i];
      }
    }
  }

  /** `sep.join(ls)` */
  function Join(ls: seq<string>, sep: string): (r: string)
    ensures ls == [] ==> r == []
    ensures |ls| == 1 ==> r == ls[0]
  {
    if ls == [] then [] else if |ls| == 1 then ls[0] else ls[0] + sep + Join(ls[1..], sep)
  }

  lemma {:induction false} JoinCons(l: string, ls: seq<string>, sep: string)
    requires ls != []
    ensures Join([l] + ls, sep) == l + sep + Join(ls, sep)
  {
    assert ([l] + ls)[1..] == ls;
  }

  lemma {:induction false} JoinAppend(ls: seq<string>, l: string, sep: string)
    requires ls != []
    ensures Join(ls + [l], sep) == Join(ls, sep) + sep + l
  {
    if |ls| == 1 {
      assert (ls + [l])[1..] == [l];
    } else {
      assert (ls + [l])[1..] == ls[1..] + [l];
      JoinAppend(ls[1..], l, sep);
    }
  }

  /** A break after a line without breaks: that line, then the lines of the rest. */
  lemma {:induction false} SplitLinesCons(a: string, rest: string)
    requires '\n' !in a
    ensures SplitLines(a + "\n" + rest) == [a] + SplitLines(rest)
  {
    var s := a + "\n" + rest;
    assert s[|a|] == '\n';
    assert forall k :: 0 <= k < |a| ==> s[k] == a[k];
    IndexOfFirst(s, '\n', |a|);
    assert s[..|a|] == a;
    assert s[|a| + 1..] == rest;
  }

  /** A text that does not end in a line break is recovered by joining its lines. */
  lemma {:induction false} JoinSplitLines(s: string)
    requires s == [] || s[|s| - 1] != '\n'
    ensures Join(SplitLines(s), "\n") == s
    decreases |s|
  {
    var i := IndexOfChar(s, '\n');
    if s != [] && i < |s| {
      var a, rest := s[..i], s[i + 1..];
      assert s == a + "\n" + rest;
      assert '\n' !in a;
      SplitLinesCons(a, rest);
      assert rest != [] && rest[|rest| - 1] == s[|s| - 1];
      JoinSplitLines(rest);
      var tl := SplitLines(rest);
      JoinCons(a, tl, "\n");
      assert Join(SplitLines(s), "\n") == a + "\n" + Join(tl, "\n");
    }
  }

  /** One step of `SplitLines`: the text up to the first break, then the lines after it. */
  lemma {:induction false} SplitLinesStep(s: string, i: nat)
    requires i < |s| && i == IndexOfChar(s, '\n') && s[|s| - 1] != '\n'
    ensures s[i + 1..] != []
    ensures SplitLines(s) == [s[..i]] + SplitLines(s[i + 1..])
  {
    assert s == s[..i] + "\n" + s[i + 1..];
    assert '\n' !in s[..i];
    SplitLinesCons(s[..i], s[i + 1..]);
  }

  /** Lines without breaks, the last one non-empty, are recovered by splitting their join. */
  lemma {:induction false} SplitLinesJoin(ls: seq<string>)
    requires forall i :: 0 <= i < |ls| ==> '\n' !in ls[i]
    requires ls == [] || ls[|ls| - 1] != []
    ensures SplitLines(Join(ls, "\n")) == ls
  {
    if |ls| == 1 {
      assert IndexOfChar(ls[0], '\n') == |ls[0]|;
    } else if |ls| > 1 {
      var tail := Join(ls[1..], "\n");
      assert Join(ls, "\n") == ls[0] + "\n" + tail;
      SplitLinesCons(ls[0], tail);
      SplitLinesJoin(ls[1..]);
    }
  }

  /** Each line followed by a break, as `"".join(l + "\n" for l in ls)` writes them. */
  function Terminated(ls: seq<string>): (r: string)
    ensures ls == [] <==> r == []
  {
    if ls == [] then [] else ls[0] + "\n" + Terminated(ls[1..])
  }

  /** Writing one more terminated line appends it at the end. */
  lemma {:induction false} TerminatedAppend(ls: seq<string>, l: string)
    ensures Terminated(ls + [l]) == Terminated(ls) + l + "\n"
  {
    if ls == [] {
      assert ([l])[1..] == [];
    } else {
      assert (ls + [l])[1..] == ls[1..] + [l];
      TerminatedAppend(ls[1..], l);
    }
  }

  /** Lines without breaks, each written with its break, split back into those lines. */
  lemma {:induction false} SplitLinesTerminated(ls: seq<string>)
    requires forall i :: 0 <= i < |ls| ==> '\n' !in ls[i]
    ensures SplitLines(Terminated(ls)) == ls
  {
    if ls != [] {
      SplitLinesCons(ls[0], Terminated(ls[1..]));
      SplitLinesTerminated(ls[1..]);
    }
  }

  /** `lines.index(x)`: the first position holding `x`, or ValueError. */
  function IndexOfLine(lines: seq<string>, x: string): (r: Result<nat, string>)
    ensures r.Ok? ==> r.value < |lines| && lines[r.value] == x && forall k :: 0 <= k < r.value ==> lines[k] != x
    ensures r.Err? ==> r == Err("ValueError") && x !in lines
  {
    if lines == [] then Err("ValueError")
    else if lines[0] == x then Ok(0)
    else
      match IndexOfLine(lines[1..], x)
      case Err(e) => Err(e)
      case Ok(i) => Ok(i + 1)
  }

  /** `s.rfind(c)`: the last position holding `c`, or -1. */
  function RFindChar(s: string, c: char): (r: int)
    ensures -1 <= r < |s|
    ensures r >= 0 ==> s[r] == c
    ensures forall j :: r < j < |s| ==> s[j] != c
  {
    if s == [] then -1 else if s[|s| - 1] == c then |s| - 1 else RFindChar(s[..|s| - 1], c)
  }

  lemma {:induction false} IndexOfFirst(s: string, c: char, k: nat)
    requires k < |s| && s[k] == c
    requires forall i :: 0 <= i < k ==> s[i] != c
    ensures IndexOfChar(s, c) == k
  {
  }

  // ---------------------------------------------------------------------------
  // Splitting on a separator and on whitespace
  // ---------------------------------------------------------------------------

  /** `s.split(sep)` for a non-empty separator. */
  function Split(s: string, sep: string): (parts: seq<string>)
    requires |sep| > 0
    ensures |parts| >= 1
    decreases |s|
  {
    var k := Find(s, sep);
    if k < 0 then [s] else [s[..k]] + Split(s[k + |sep|..], sep)
  }

  /** The text splits into one part exactly when the separator does not occur in it. */
  lemma {:induction false} SplitSingle(s: string, sep: string)
    requires |sep| > 0
    ensures |Split(s, sep)| == 1 <==> !Contains(s, sep)
  {
    var k := Find(s, sep);
    if k >= 0 {
      var rest := Split(s[k + |sep|..], sep);
      assert Split(s, sep) == [s[..k]] + rest;
    } else {
      assert Split(s, sep) == [s];
    }
  }

  /** `s.split(sep)[0]` is the text before the first separator. */
  lemma {:induction false} SplitFirst(s: string, sep: string)
    requires |sep| > 0
    ensures Split(s, sep)[0] == if Contains(s, sep) then s[..Find(s, sep)] else s
  {
  }

  /** `s.split(sep)[-1]` holds no separator. */
  lemma {:induction false} SplitLastHasNoSeparator(s: string, sep: string)
    requires |sep| > 0
    ensures !Contains(Split(s, sep)[|Split(s, sep)| - 1], sep)
    decreases |s|
  {
    var k := Find(s, sep);
    var parts := Split(s, sep);
    if k >= 0 {
      var rest := Split(s[k + |sep|..], sep);
      assert parts == [s[..k]] + rest;
      assert parts[|parts| - 1] == rest[|rest| - 1];
      SplitLastHasNoSeparator(s[k + |sep|..], sep);
    } else {
      assert parts == [s];
    }
  }

  /** The index of the first whitespace character, or `|s|`. */
  function IndexOfSpace(s: string): (r: nat)
    ensures r <= |s|
    ensures forall i :: 0 <= i < r ==> !IsSpace(s[i])
    ensures r < |s| ==> IsSpace(s[r])
  {
    if s == [] then 0 else if IsSpace(s[0]) then 0 else 1 + IndexOfSpace(s[1..])
  }

  /** `s.split()`: the maximal runs of non-whitespace characters. */
  function Words(s: string): (ws: seq<string>)
    ensures forall i :: 0 <= i < |ws| ==> ws[i] != []
    decreases |s|
  {
    var t := LStrip(s);
    if t == [] then []
    else
      var k := IndexOfSpace(t);
      LeadingWhitespaceSpec(s);
      assert 0 < k <= |t| <= |s|;
      [t[..k]] + Words(t[k..])
  }

  /** `s.split(None, 1)[1]`: what follows the first word, or None (IndexError) when nothing does. */
  function AfterFirstWord(s: string): (r: Option<string>)
    ensures r.Some? ==> r.value != [] && !IsSpace(r.value[0])
  {
    var t := LStrip(s);
    var rest := LStrip(t[IndexOfSpace(t)..]);
    LeadingWhitespaceSpec(t[IndexOfSpace(t)..]);
    if rest == [] then None else Some(rest)
  }

  // ---------------------------------------------------------------------------
  // Replacement
  // ---------------------------------------------------------------------------

  /** `s.replace(pat, rep)`: left to right, non-overlapping. */
  function Replace(s: string, pat: string, rep: string): string
    requires |pat| > 0
    decreases |s|
  {
    if |s| < |pat| then s
    else if s[..|pat|] == pat then rep + Replace(s[|pat|..], pat, rep)
    else [s[0]] + Replace(s[1..], pat, rep)
  }

  /** A one-character replacement removes every occurrence of that character. */
  lemma {:induction false} ReplaceRemoves(s: string, c: char, rep: string)
    requires c !in rep
    ensures c !in Replace(s, [c], rep)
    decreases |s|
  {
    if |s| >= 1 {
      ReplaceRemoves(s[1..], c, rep);
    }
  }

  /** A character absent from the text and from the replacement stays absent. */
  lemma {:induction false} ReplaceKeepsAbsent(s: string, pat: string, rep: string, d: char)
    requires |pat| > 0 && d !in s && d !in rep
    ensures d !in Replace(s, pat, rep)
    decreases |s|
  {
    if |s| >= |pat| {
      if s[..|pat|] == pat {
        ReplaceKeepsAbsent(s[|pat|..], pat, rep, d);
      } else {
        ReplaceKeepsAbsent(s[1..], pat, rep, d);
      }
    }
  }

  /** A character that the pattern does not mention survives the replacement. */
  lemma {:induction false} ReplaceKeepsPresent(s: string, pat: string, rep: string, d: char)
    requires |pat| > 0 && d in s && d !in pat
    ensures d in Replace(s, pat, rep)
    decreases |s|
  {
    if |s| >= |pat| {
      if s[..|pat|] == pat {
        assert d !in s[..|pat|];
        assert d in s[|pat|..] by {
          var i :| 0 <= i < |s| && s[i] == d;
          assert i >= |pat|;
          assert s[|pat|..][i - |pat|] == d;
        }
        ReplaceKeepsPresent(s[|pat|..], pat, rep, d);
      } else if s[0] != d {
        assert d in s[1..] by {
          var i :| 0 <= i < |s| && s[i] == d;
          assert s[1..][i - 1] == d;
        }
        ReplaceKeepsPresent(s[1..], pat, rep, d);
      }
    }
  }

  /** A text without the replaced character is left as it is. */
  lemma {:induction false} ReplaceNothing(s: string, c: char, rep: string)
    requires c !in s
    ensures Replace(s, [c], rep) == s
    decreases |s|
  {
    if |s| >= 1 {
      ReplaceNothing(s[1..], c, rep);
    }
  }

  /** One-character replacement works character by character, so it distributes over `+`. */
  lemma {:induction false} ReplaceConcat(a: string, b: string, c: char, rep: string)
    ensures Replace(a + b, [c], rep) == Replace(a, [c], rep) + Replace(b, [c], rep)
    decreases |a|
  {
    if a == [] {
      assert a + b == b;
    } else {
      assert (a + b)[1..] == a[1..] + b;
      assert (a + b)[..1] == a[..1];
      ReplaceConcat(a[1..], b, c, rep);
    }
  }

  /** Replacing one character in a one-character text. */
  lemma {:induction false} ReplaceSingle(x: char, c: char, rep: string)
    ensures Replace([x], [c], rep) == if x == c then rep else [x]
  {
    assert [x][1..] == [];
  }

  // ---------------------------------------------------------------------------
  // Padding
  // ---------------------------------------------------------------------------

  /** `c * k` */
  function Repeat(c: char, k: nat): (r: string)
    ensures |r| == k
    ensures forall i :: 0 <= i < k ==> r[i] == c
  {
    if k == 0 then [] else [c] + Repeat(c, k - 1)
  }

  /**
   * `s.center(width, fill)`, as CPython computes it: of the `width - len(s)`
   * padding characters, half (rounded down) go left, plus one more when both
   * the padding and the width are odd.
   */
  function Center(s: string, width: nat, fill: char): (r: string)
    ensures |s| >= width ==> r == s
    ensures |s| < width ==> |r| == width
    ensures |s| < width ==> exists left: nat ::
      left <= width - |s| && r == Repeat(fill, left) + s + Repeat(fill, width - |s| - left)
  {
    if |s| >= width then s
    else
      var marg := width - |s|;
      var left := marg / 2 + (if marg % 2 == 1 && width % 2 == 1 then 1 else 0);
      Repeat(fill, left) + s + Repeat(fill, marg - left)
  }

  /** With an even width the left padding is half the padding, rounded down. */
  lemma {:induction false} CenterEvenWidth(s: string, width: nat, fill: char)
    requires width % 2 == 0 && |s| < width
    ensures Center(s, width, fill)
         == Repeat(fill, (width - |s|) / 2) + s + Repeat(fill, width - |s| - (width - |s|) / 2)
  {
  }

  // ---------------------------------------------------------------------------
  // Sequence shapes used by the proofs
  // ---------------------------------------------------------------------------

  /** Concatenation regrouped. */
  lemma Assoc<T>(a: seq<T>, b: seq<T>, c: seq<T>)
    ensures a + (b + c) == (a + b) + c
  {
  }

  lemma Assoc4<T>(a: seq<T>, b: seq<T>, c: seq<T>, d: seq<T>)
    ensures a + b + c + d == a + (b + c + d)
  {
  }

  /** A non-empty front part gives the whole its head and its tail. */
  lemma ConsTail<T>(a: seq<T>, r: seq<T>)
    requires a != []
    ensures (a + r)[0] == a[0] && (a + r)[1..] == a[1..] + r && a + r == [a[0]] + (a[1..] + r)
  {
  }

  /** An element of the tail is the element one further on. */
  lemma TailIndex<T>(s: seq<T>, j: nat)
    requires 0 < j < |s|
    ensures s[1..][j - 1] == s[j]
  {
  }

  /** A sequence around one of its elements. */
  lemma SplitAt<T>(s: seq<T>, i: nat)
    requires i < |s|
    ensures s == s[..i] + [s[i]] + s[i + 1..]
  {
  }

  /** Putting an element in front of a non-empty sequence keeps its last element last. */
  lemma ConsLast<T>(x: T, s: seq<T>)
    requires s != []
    ensures ([x] + s)[..|s|] == [x] + s[..|s| - 1] && ([x] + s)[|s|] == s[|s| - 1]
  {
  }

  /** A slice one longer is the slice and the next element. */
  lemma SliceLast<T>(s: seq<T>, a: nat, b: nat)
    requires a <= b < |s|
    ensures s[a..b + 1] == s[a..b] + [s[b]]
  {
  }

  /** An element put at the end: the front is what it was, the last is the element. */
  lemma SnocParts<T>(s: seq<T>, x: T)
    ensures (s + [x])[..|s|] == s && (s + [x])[|s|] == x
  {
  }

  /** A slice of a suffix is a slice of the whole. */
  lemma DropSlice<T>(s: seq<T>, a: nat, j: nat, n: nat)
    requires a <= |s| && j + n <= |s| - a
    ensures s[a..][j..j + n] == s[a + j..a + j + n]
  {
  }

  /** The four parts of a concatenation, read back by position. */
  lemma ConcatParts<T>(a: seq<T>, b: seq<T>, c: seq<T>, d: seq<T>)
    ensures var r := a + b + c + d;
      r[..|a|] == a && r[|a|..|a| + |b|] == b && r[|a| + |b|..|r| - |d|] == c && r[|r| - |d|..] == d
  {
  }
}
