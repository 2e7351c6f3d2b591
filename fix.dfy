/**
 * `book_builder/fix.py`: closing the gap between a listing's `package` line
 * and its first `import`, one blank line at a time, until none is left.
 */
module BookFix {

  import opened Results
  import opened Text

  /** Line `n` opens a package / blank / import triple. */
  predicate GapAt(lines: seq<string>, n: nat)
    requires n + 2 < |lines|
  {
    StartsWith(lines[n], "package ") && Strip(lines[n + 1]) == "" && StartsWith(lines[n + 2], "import ")
  }

  /** No package / blank / import triple anywhere. */
  predicate NoGap(lines: seq<string>) {
    forall n: nat :: n + 2 < |lines| ==> !GapAt(lines, n)
  }

  /**
   * What `degap`'s scan finds from line `n` on: the first triple, nothing,
   * or the IndexError of reading past the end.  The conditions are read
   * left to right and stop at the first false one, so the lines after a
   * `package ` line are only indexed when that line starts with it.
   */
  function GapScan(lines: seq<string>, n: nat): (r: Result<Option<nat>, string>)
    ensures r.Ok? && r.value.Some? ==> n <= r.value.value && r.value.value + 2 < |lines|
    decreases |lines| - n
  {
    if n >= |lines| then Ok(None)
    else if !StartsWith(lines[n], "package ") then GapScan(lines, n + 1)
    else if n + 1 >= |lines| then Err("IndexError")
    else if Strip(lines[n + 1]) != "" then GapScan(lines, n + 1)
    else if n + 2 >= |lines| then Err("IndexError")
    else if StartsWith(lines[n + 2], "import ") then Ok(Some(n))
    else GapScan(lines, n + 1)
  }

  /** `del lines[i]` */
  function Delete(lines: seq<string>, i: nat): (r: seq<string>)
    requires i < |lines|
    ensures |r| == |lines| - 1
  {
    lines[..i] + lines[i + 1..]
  }

  /** What one call of `degap` returns: the lines and whether a blank line was deleted. */
  function DegapResult(lines: seq<string>): Result<(seq<string>, bool), string> {
    match GapScan(lines, 0)
    case Err(e) => Err(e)
    case Ok(None) => Ok((lines, false))
    case Ok(Some(n)) => Ok((Delete(lines, n + 1), true))
  }

  /**
   * `degap(lines)`: the first package / blank / import triple loses its
   * blank line.  The deletion is modelled by returning the shortened list,
   * which the only caller rebinds anyway.
   */
  method Degap(lines: seq<string>) returns (r: Result<(seq<string>, bool), string>)
    ensures r == DegapResult(lines)
  {
    var n := 0;
    while n < |lines|
      invariant 0 <= n <= |lines|
      invariant GapScan(lines, n) == GapScan(lines, 0)
    {
      var line := lines[n];
      if StartsWith(line, "package ") {
        if n + 1 >= |lines| {
          return Err("IndexError");
        }
        if Strip(lines[n + 1]) == "" {
          if n + 2 >= |lines| {
            return Err("IndexError");
          }
          if StartsWith(lines[n + 2], "import ") {
            var shorter := lines[..n + 1] + lines[n + 2..];
            return Ok((shorter, true));
          }
        }
      }
      n := n + 1;
    }
    return Ok((lines, false));
  }

  /** A triple found from `m` on is a real triple, and the first one from `m` on. */
  lemma {:induction false} GapScanFound(lines: seq<string>, m: nat)
    requires GapScan(lines, m).Ok? && GapScan(lines, m).value.Some?
    ensures var n := GapScan(lines, m).value.value;
      GapAt(lines, n) && forall k: nat :: m <= k < n ==> !GapAt(lines, k)
    decreases |lines| - m
  {
    if GapScan(lines, m) != Ok(Some(m)) {
      GapScanFound(lines, m + 1);
    }
  }

  /** When the scan finds nothing from `m` on, there is no triple from `m` on. */
  lemma {:induction false} GapScanNone(lines: seq<string>, m: nat)
    requires GapScan(lines, m) == Ok(None)
    ensures forall k: nat :: m <= k && k + 2 < |lines| ==> !GapAt(lines, k)
    decreases |lines| - m
  {
    if m < |lines| {
      GapScanNone(lines, m + 1);
    }
  }

  /**
   * The scan raises only at the end of the list: the last line starts with
   * `package `, or the one before it does and the last line is blank.
   */
  lemma {:induction false} GapScanError(lines: seq<string>, m: nat)
    requires GapScan(lines, m).Err?
    ensures GapScan(lines, m).error == "IndexError"
    ensures |lines| >= 1 && (StartsWith(lines[|lines| - 1], "package ") ||
      (|lines| >= 2 && StartsWith(lines[|lines| - 2], "package ") && Strip(lines[|lines| - 1]) == ""))
    decreases |lines| - m
  {
    if m < |lines| && !(StartsWith(lines[m], "package ") && (m + 1 >= |lines| || (Strip(lines[m + 1]) == "" && m + 2 >= |lines|))) {
      GapScanError(lines, m + 1);
    }
  }

  /**
   * A `package ` line in last position raises IndexError whenever no triple
   * comes before it: the guard reads `lines[n+1]` unchecked.
   */
  lemma {:induction false} PackageLastRaises(lines: seq<string>, m: nat)
    requires m < |lines| && StartsWith(lines[|lines| - 1], "package ")
    requires forall k: nat :: m <= k && k + 2 < |lines| ==> !GapAt(lines, k)
    ensures GapScan(lines, m) == Err("IndexError")
    decreases |lines| - m
  {
    if m == |lines| - 1 {
    } else if GapScan(lines, m) != GapScan(lines, m + 1) {
      if GapScan(lines, m).Ok? && GapScan(lines, m).value.Some? {
        GapScanFound(lines, m);
        assert false;
      }
      if m + 2 >= |lines| {
        assert StartsWith(lines[m], "package ") && Strip(lines[m + 1]) == "" && m + 2 == |lines|;
      }
    } else {
      PackageLastRaises(lines, m + 1);
    }
  }

  /**
   * One `degap` call: IndexError, or the list unchanged exactly when it has
   * no triple, or the list with the blank line of the first triple deleted,
   * one line shorter, everything else in order.
   */
  lemma DegapSpec(lines: seq<string>)
    ensures DegapResult(lines).Err? ==> DegapResult(lines).error == "IndexError"
    ensures DegapResult(lines) == Ok((lines, false)) ==> NoGap(lines)
    ensures DegapResult(lines).Ok? && DegapResult(lines).value.1 ==>
      exists n: nat :: n + 2 < |lines| && GapAt(lines, n) &&
        (forall k: nat :: k < n ==> !GapAt(lines, k)) &&
        DegapResult(lines).value.0 == Delete(lines, n + 1)
  {
    match GapScan(lines, 0)
    case Err(_) =>
      GapScanError(lines, 0);
    case Ok(None) =>
      GapScanNone(lines, 0);
    case Ok(Some(n)) =>
      GapScanFound(lines, 0);
  }

  /** A list without a triple is returned unchanged, unless it ends on a dangling `package ` line. */
  lemma DegapNoGap(lines: seq<string>)
    requires NoGap(lines)
    ensures DegapResult(lines) == Ok((lines, false)) || DegapResult(lines) == Err("IndexError")
  {
    if GapScan(lines, 0).Ok? && GapScan(lines, 0).value.Some? {
      GapScanFound(lines, 0);
    } else if GapScan(lines, 0).Err? {
      GapScanError(lines, 0);
    }
  }

  // ---------------------------------------------------------------------------
  // fix_gap_between_package_and_import
  // ---------------------------------------------------------------------------

  /** Repeated `degap` until nothing changes. */
  function FixGapResult(lines: seq<string>): Result<seq<string>, string>
    decreases |lines|
  {
    match GapScan(lines, 0)
    case Err(e) => Err(e)
    case Ok(None) => Ok(lines)
    case Ok(Some(n)) => FixGapResult(Delete(lines, n + 1))
  }

  /**
   * `fix_gap_between_package_and_import(lines, error_reporter)`: `degap`
   * until it reports no change; every round deletes a line, so the loop ends.
   */
  method FixGapBetweenPackageAndImport(lines: seq<string>) returns (r: Result<seq<string>, string>)
    ensures r == FixGapResult(lines)
  {
    var current := lines;
    while true
      invariant FixGapResult(current) == FixGapResult(lines)
      decreases |current|
    {
      var d := Degap(current);
      if d.Err? {
        return Err(d.error);
      }
      var (next, degapped) := d.value;
      if !degapped {
        return Ok(next);
      }
      current := next;
    }
  }

  /** `l.strip() == ""`, stated through `lstrip` alone (see `Text.StripEmptyIff`). */
  predicate Blank(l: string) {
    LeadingWhitespace(l) == |l|
  }

  /** The lines that are not blank, in order. */
  function NonBlank(lines: seq<string>): seq<string> {
    if lines == [] then []
    else (if Blank(lines[0]) then [] else [lines[0]]) + NonBlank(lines[1..])
  }

  lemma {:induction false} NonBlankSkip(a: seq<string>, x: string, b: seq<string>)
    requires Blank(x)
    ensures NonBlank(a + [x] + b) == NonBlank(a + b)
  {
    if a == [] {
      assert a + [x] + b == [x] + b && ([x] + b)[1..] == b && a + b == b;
    } else {
      assert (a + [x] + b)[1..] == a[1..] + [x] + b;
      assert (a + b)[1..] == a[1..] + b;
      assert (a + [x] + b)[0] == (a + b)[0];
      NonBlankSkip(a[1..], x, b);
    }
  }


  /** Deleting a blank line keeps every other non-blank line in order. */
  lemma DeleteBlank(lines: seq<string>, i: nat)
    requires i < |lines| && Strip(lines[i]) == ""
    ensures NonBlank(Delete(lines, i)) == NonBlank(lines)
  {
    var a, x, b := lines[..i], lines[i], lines[i + 1..];
    StripEmptyIff(x);
    SplitAt(lines, i);
    NonBlankSkip(a, x, b);
  }

  /**
   * The fixed listing has no package / blank / import triple left, lost only
   * blank lines, and keeps every other line in order.
   */
  lemma {:induction false} FixGapSpec(lines: seq<string>)
    ensures FixGapResult(lines).Err? ==> FixGapResult(lines).error == "IndexError"
    ensures FixGapResult(lines).Ok? ==>
      var fixed := FixGapResult(lines).value;
      NoGap(fixed) && |fixed| <= |lines| && NonBlank(fixed) == NonBlank(lines)
    decreases |lines|
  {
    match GapScan(lines, 0)
    case Err(_) =>
      GapScanError(lines, 0);
    case Ok(None) =>
      GapScanNone(lines, 0);
    case Ok(Some(n)) =>
      GapScanFound(lines, 0);
      DeleteBlank(lines, n + 1);
      FixGapSpec(Delete(lines, n + 1));
  }
}
