/** Chains of `str.replace` calls, as the filename helpers write them. */
module Replacements {

  import opened Text

  /** One `.replace(c, rep)` step of a chain. */
  datatype Step = Step(c: char, rep: string)

  /** `s.replace(c1, r1).replace(c2, r2)...` */
  function ReplaceAll(s: string, steps: seq<Step>): string
    decreases |steps|
  {
    if steps == [] then s else ReplaceAll(Replace(s, [steps[0].c], steps[0].rep), steps[1..])
  }

  /** No replacement text brings back a character that a later step replaces. */
  predicate Closed(steps: seq<Step>) {
    forall i, j :: 0 <= i < j < |steps| ==> steps[j].c !in steps[i].rep
  }

  predicate Touches(steps: seq<Step>, x: char) {
    exists i :: 0 <= i < |steps| && steps[i].c == x
  }

  /** What a chain does to one character: the first step for it, or nothing. */
  function Lookup(x: char, steps: seq<Step>): string {
    if steps == [] then [x] else if x == steps[0].c then steps[0].rep else Lookup(x, steps[1..])
  }

  /** The first step for `x` decides what the chain does to it. */
  lemma {:induction false} LookupFound(x: char, steps: seq<Step>, k: nat)
    requires k < |steps| && steps[k].c == x
    requires forall i :: 0 <= i < k ==> steps[i].c != x
    ensures Lookup(x, steps) == steps[k].rep
  {
    if k > 0 {
      assert steps[0].c != x;
      LookupFound(x, steps[1..], k - 1);
    }
  }

  lemma {:induction false} ReplaceAllConcat(a: string, b: string, steps: seq<Step>)
    ensures ReplaceAll(a + b, steps) == ReplaceAll(a, steps) + ReplaceAll(b, steps)
    decreases |steps|
  {
    if steps != [] {
      ReplaceConcat(a, b, steps[0].c, steps[0].rep);
      ReplaceAllConcat(Replace(a, [steps[0].c], steps[0].rep), Replace(b, [steps[0].c], steps[0].rep), steps[1..]);
    }
  }

  lemma {:induction false} ReplaceAllUntouched(s: string, steps: seq<Step>)
    requires forall i :: 0 <= i < |s| ==> !Touches(steps, s[i])
    ensures ReplaceAll(s, steps) == s
  {
    if steps != [] {
      ReplaceNothing(s, steps[0].c, steps[0].rep);
      forall i | 0 <= i < |s| ensures !Touches(steps[1..], s[i]) {
        forall k | 0 <= k < |steps[1..]| ensures steps[1..][k].c != s[i] {
          assert steps[1..][k] == steps[k + 1];
        }
      }
      ReplaceAllUntouched(s, steps[1..]);
    }
  }

  lemma {:induction false} ReplaceAllChar(x: char, steps: seq<Step>)
    requires Closed(steps)
    ensures ReplaceAll([x], steps) == Lookup(x, steps)
  {
    if steps != [] {
      ReplaceSingle(x, steps[0].c, steps[0].rep);
      assert Closed(steps[1..]) by {
        forall i, j | 0 <= i < j < |steps[1..]| ensures steps[1..][j].c !in steps[1..][i].rep {
          assert steps[1..][j] == steps[j + 1] && steps[1..][i] == steps[i + 1];
        }
      }
      if x == steps[0].c {
        var r := steps[0].rep;
        forall i | 0 <= i < |r| ensures !Touches(steps[1..], r[i]) {
          forall k | 0 <= k < |steps[1..]| ensures steps[1..][k].c != r[i] {
            assert steps[1..][k] == steps[k + 1];
            assert steps[k + 1].c !in steps[0].rep;
          }
        }
        ReplaceAllUntouched(r, steps[1..]);
      } else {
        ReplaceAllChar(x, steps[1..]);
      }
    }
  }
}
