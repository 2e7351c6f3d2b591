/**
 * The chapter map the disassemblers build from a combined Markdown book.
 *
 * The book is first split by a chapter-heading pattern with one capture
 * group, so the parts alternate: body, name, body, name, ..., body.  The
 * map is a Python `OrderedDict`: "Front" holds the first body, then every
 * name in turn maps to its stripped body plus a line break.  Assigning to a
 * key that is already present overwrites the value and keeps the key where
 * it was.
 */
module Chapters {

  import opened Results
  import opened Text

  /** An insertion-ordered dictionary, as its list of entries. */
  type OrderedMap<V> = seq<(string, V)>

  function Keys<V>(m: OrderedMap<V>): (ks: seq<string>)
    ensures |ks| == |m|
    ensures forall i :: 0 <= i < |m| ==> ks[i] == m[i].0
  {
    if m == [] then [] else [m[0].0] + Keys(m[1..])
  }

  /** No key occurs twice. */
  predicate Distinct(ks: seq<string>) {
    forall i, j :: 0 <= i < j < |ks| ==> ks[i] != ks[j]
  }

  /** The position of `k`, or `|m|` when it is absent. */
  function IndexOfKey<V>(m: OrderedMap<V>, k: string): (i: nat)
    ensures i <= |m|
    ensures i < |m| ==> m[i].0 == k
    ensures forall j :: 0 <= j < i ==> m[j].0 != k
  {
    if m == [] then 0 else if m[0].0 == k then 0 else 1 + IndexOfKey(m[1..], k)
  }

  /** `m[k]`, or None (KeyError). */
  function Get<V>(m: OrderedMap<V>, k: string): Option<V> {
    var i := IndexOfKey(m, k);
    if i < |m| then Some(m[i].1) else None
  }

  /** `m[k] = v` */
  function Put<V>(m: OrderedMap<V>, k: string, v: V): OrderedMap<V> {
    var i := IndexOfKey(m, k);
    if i < |m| then m[i := (k, v)] else m + [(k, v)]
  }

  lemma {:induction false} IndexOfKeyIs<V>(m: OrderedMap<V>, k: string, i: nat)
    requires i < |m| && m[i].0 == k && forall j :: 0 <= j < i ==> m[j].0 != k
    ensures IndexOfKey(m, k) == i
  {
    var r := IndexOfKey(m, k);
    if r < i {
      assert false;
    }
  }

  lemma {:induction false} InKeys<V>(m: OrderedMap<V>, k: string)
    ensures k in Keys(m) <==> IndexOfKey(m, k) < |m|
  {
    if k in Keys(m) {
      var j :| 0 <= j < |m| && Keys(m)[j] == k;
      assert m[j].0 == k;
    }
  }

  /** An assignment keeps the key order and adds a new key at the end; keys stay distinct. */
  lemma {:induction false} PutKeys<V>(m: OrderedMap<V>, k: string, v: V)
    ensures Keys(Put(m, k, v)) == if k in Keys(m) then Keys(m) else Keys(m) + [k]
    ensures Distinct(Keys(m)) ==> Distinct(Keys(Put(m, k, v)))
  {
    InKeys(m, k);
    var r := Put(m, k, v);
    if k in Keys(m) {
      assert forall x :: 0 <= x < |r| ==> Keys(r)[x] == Keys(m)[x];
    } else {
      assert forall x :: 0 <= x < |r| ==> Keys(r)[x] == (Keys(m) + [k])[x];
    }
  }

  /** After `m[k] = v`, `m[k]` is `v` and every other key reads what it did. */
  lemma {:induction false} PutGet<V>(m: OrderedMap<V>, k: string, v: V, k': string)
    ensures Get(Put(m, k, v), k') == if k' == k then Some(v) else Get(m, k')
  {
    var r := Put(m, k, v);
    var i, j := IndexOfKey(m, k), IndexOfKey(m, k');
    if k' == k {
      IndexOfKeyIs(r, k, i);
    } else if j < |m| {
      IndexOfKeyIs(r, k', j);
    } else {
      assert forall x :: 0 <= x < |r| ==> r[x].0 != k';
      assert IndexOfKey(r, k') == |r|;
    }
  }

  /** The chapter names: the odd-position parts of the split, `parts[1::2]`. */
  function Names(parts: seq<string>): (ns: seq<string>)
    ensures |ns| == |parts| / 2
    ensures forall i :: 0 <= i < |ns| ==> ns[i] == parts[2 * i + 1]
  {
    seq(|parts| / 2, i requires 0 <= i < |parts| / 2 => parts[2 * i + 1])
  }

  /** The bodies: the even-position parts of the split, `parts[0::2]`. */
  function Bodies(parts: seq<string>): (bs: seq<string>)
    ensures |bs| == (|parts| + 1) / 2
    ensures forall i :: 0 <= i < |bs| ==> bs[i] == parts[2 * i]
  {
    seq((|parts| + 1) / 2, i requires 0 <= i < (|parts| + 1) / 2 => parts[2 * i])
  }

  /** The map after "Front" and the first `n` names. */
  function ChapterMap(parts: seq<string>, n: nat): OrderedMap<string>
    requires |parts| % 2 == 1 && n <= |parts| / 2
  {
    if n == 0 then Put([], "Front", parts[0])
    else Put(ChapterMap(parts, n - 1), parts[2 * n - 1], Strip(parts[2 * n]) + "\n")
  }

  /** The loop that fills `chaps`. */
  method BuildChapters(parts: seq<string>) returns (chaps: OrderedMap<string>)
    requires |parts| % 2 == 1
    ensures chaps == ChapterMap(parts, |parts| / 2)
  {
    var names, bodies := Names(parts), Bodies(parts);
    chaps := Put([], "Front", bodies[0]);
    var i := 0;
    while i < |names|
      invariant 0 <= i <= |names|
      invariant chaps == ChapterMap(parts, i)
    {
      assert names[i] == parts[2 * i + 1] && bodies[i + 1] == parts[2 * i + 2];
      assert ChapterMap(parts, i + 1) == Put(ChapterMap(parts, i), parts[2 * i + 1], Strip(parts[2 * i + 2]) + "\n");
      chaps := Put(chaps, names[i], Strip(bodies[i + 1]) + "\n");
      i := i + 1;
    }
  }

  /** `"Front"` and the names, each kept at its first occurrence. */
  function FirstOccurrences(ks: seq<string>): (r: seq<string>)
  {
    if ks == [] then []
    else
      var r := FirstOccurrences(ks[..|ks| - 1]);
      if ks[|ks| - 1] in r then r else r + [ks[|ks| - 1]]
  }

  /** No key of the chapter map occurs twice. */
  lemma {:induction false} ChapterMapDistinct(parts: seq<string>, n: nat)
    requires |parts| % 2 == 1 && n <= |parts| / 2
    ensures Distinct(Keys(ChapterMap(parts, n)))
  {
    if n == 0 {
      PutKeys([], "Front", parts[0]);
    } else {
      var prev, k, v := ChapterMap(parts, n - 1), parts[2 * n - 1], Strip(parts[2 * n]) + "\n";
      assert ChapterMap(parts, n) == Put(prev, k, v);
      ChapterMapDistinct(parts, n - 1);
      PutKeys(prev, k, v);
    }
  }

  /** One step of the loop adds its name at the end unless it is a key already. */
  lemma ChapterMapKeysStep(parts: seq<string>, n: nat)
    requires |parts| % 2 == 1 && 0 < n <= |parts| / 2
    ensures var prev, k := Keys(ChapterMap(parts, n - 1)), parts[2 * n - 1];
      Keys(ChapterMap(parts, n)) == if k in prev then prev else prev + [k]
  {
    PutKeys(ChapterMap(parts, n - 1), parts[2 * n - 1], Strip(parts[2 * n]) + "\n");
  }

  /** The keys are "Front" and the names in the order each first appears. */
  lemma {:induction false} ChapterMapKeys(parts: seq<string>, n: nat)
    requires |parts| % 2 == 1 && n <= |parts| / 2
    ensures Keys(ChapterMap(parts, n)) == FirstOccurrences(["Front"] + Names(parts)[..n])
  {
    var ks := ["Front"] + Names(parts)[..n];
    if n == 0 {
      assert ks == ["Front"];
      assert FirstOccurrences(ks) == ["Front"];
      PutKeys([], "Front", parts[0]);
      assert Keys(ChapterMap(parts, n)) == ["Front"];
    } else {
      var k := parts[2 * n - 1];
      var prefix := ["Front"] + Names(parts)[..n - 1];
      assert ks == prefix + [k];
      assert ks[..|ks| - 1] == prefix;
      ChapterMapKeys(parts, n - 1);
      var prev := ChapterMap(parts, n - 1);
      ChapterMapKeysStep(parts, n);
      var r := FirstOccurrences(prefix);
      assert Keys(prev) == r;
      assert FirstOccurrences(ks) == if k in r then r else r + [k];
      assert Keys(ChapterMap(parts, n)) == FirstOccurrences(ks);
    }
  }

  /** One step of the loop: the name just assigned reads its body, every other key reads what it did. */
  lemma ChapterMapStep(parts: seq<string>, n: nat, name: string)
    requires |parts| % 2 == 1 && 0 < n <= |parts| / 2
    ensures Get(ChapterMap(parts, n), name) ==
      if name == parts[2 * n - 1] then Some(Strip(parts[2 * n]) + "\n") else Get(ChapterMap(parts, n - 1), name)
  {
    PutGet(ChapterMap(parts, n - 1), parts[2 * n - 1], Strip(parts[2 * n]) + "\n", name);
  }

  /** A name reads the stripped body after its LAST occurrence: a repeated chapter name keeps the later body. */
  lemma {:induction false} ChapterMapValue(parts: seq<string>, n: nat, j: nat)
    requires |parts| % 2 == 1 && n <= |parts| / 2 && j < n
    requires forall j' :: j < j' < n ==> parts[2 * j' + 1] != parts[2 * j + 1]
    ensures Get(ChapterMap(parts, n), parts[2 * j + 1]) == Some(Strip(parts[2 * j + 2]) + "\n")
  {
    var name := parts[2 * j + 1];
    ChapterMapStep(parts, n, name);
    if j < n - 1 {
      assert parts[2 * (n - 1) + 1] != name;
      ChapterMapValue(parts, n - 1, j);
    }
  }

  /** "Front" reads the first body unless a chapter is itself named "Front". */
  lemma {:induction false} ChapterMapFront(parts: seq<string>, n: nat)
    requires |parts| % 2 == 1 && n <= |parts| / 2
    requires forall j :: 0 <= j < n ==> parts[2 * j + 1] != "Front"
    ensures Get(ChapterMap(parts, n), "Front") == Some(parts[0])
  {
    if n > 0 {
      assert parts[2 * (n - 1) + 1] != "Front";
      ChapterMapStep(parts, n, "Front");
      ChapterMapFront(parts, n - 1);
    } else {
      PutGet([], "Front", parts[0], "Front");
    }
  }

  /**
   * The text written for a chapter: a chapter whose name does not contain
   * "Front" gets its name, a line of `=` as long as the name and a blank
   * line before the text.
   */
  function ChapterFile(title: string, text: string): string {
    if Contains(title, "Front") then text
    else title + "\n" + Repeat('=', |title|) + "\n\n" + text
  }

  /** Read back as lines, a titled chapter is its title, the underline, a blank line, then the lines of its text. */
  lemma {:induction false} ChapterFileLines(title: string, text: string)
    requires !Contains(title, "Front") && '\n' !in title
    ensures SplitLines(ChapterFile(title, text)) == [title] + ([Repeat('=', |title|)] + ([""] + SplitLines(text)))
  {
    var u := Repeat('=', |title|);
    assert '\n' !in u by {
      if '\n' in u {
        assert false;
      }
    }
    var blank := "\n" + text;
    var under := u + "\n" + blank;
    assert ChapterFile(title, text) == title + "\n" + under;
    SplitLinesCons("", text);
    assert "" + "\n" + text == blank;
    SplitLinesCons(u, blank);
    SplitLinesCons(title, under);
  }

  /** A chapter's text written as it is in the map. */
  function AsIs(text: string): string {
    text
  }

  /** What a disassembler writes for the chapter at position `i`: the file's name and its text. */
  function Output(chaps: OrderedMap<string>, i: nat, fileName: (string, nat) -> string, body: string -> string): (string, string)
    requires i < |chaps|
  {
    (fileName(chaps[i].0, i), ChapterFile(chaps[i].0, body(chaps[i].1)))
  }

  /** The files written, one per chapter in map order: `for i, p in enumerate(chaps)`. */
  function Outputs(chaps: OrderedMap<string>, fileName: (string, nat) -> string, body: string -> string): (files: seq<(string, string)>)
    ensures |files| == |chaps|
    ensures forall i :: 0 <= i < |chaps| ==> files[i] == Output(chaps, i, fileName, body)
  {
    seq(|chaps|, i requires 0 <= i < |chaps| => Output(chaps, i, fileName, body))
  }

  /**
   * The loop shared by the disassemblers: chapter `i` goes to
   * `fileName(p, i)`, headed by its title unless the name contains "Front",
   * with `body` applied to its text.
   */
  method WriteChapters(chaps: OrderedMap<string>, fileName: (string, nat) -> string, body: string -> string)
    returns (files: seq<(string, string)>)
    ensures files == Outputs(chaps, fileName, body)
  {
    files := [];
    var i := 0;
    while i < |chaps|
      invariant 0 <= i <= |chaps| && files == Outputs(chaps, fileName, body)[..i]
    {
      var p := chaps[i].0;
      var text := "";
      if !Contains(p, "Front") {
        text := p + "\n" + Repeat('=', |p|) + "\n\n";
      }
      text := text + body(chaps[i].1);
      assert text == ChapterFile(p, body(chaps[i].1));
      files := files + [(fileName(p, i), text)];
      i := i + 1;
    }
  }

  /** When a filename determines the chapter position, no two chapters are written to the same file. */
  lemma {:induction false} OutputNamesDistinct(chaps: OrderedMap<string>, fileName: (string, nat) -> string, body: string -> string)
    requires forall a, b, i: nat, j: nat :: fileName(a, i) == fileName(b, j) ==> i == j
    ensures var files := Outputs(chaps, fileName, body);
      forall i, j :: 0 <= i < j < |files| ==> files[i].0 != files[j].0
  {
  }
}
