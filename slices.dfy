/** Python's slice bounds on lists: negative bounds count from the end, and bounds are clipped. */
module Slices {

  /** Where the slice bound `k` lands in a sequence of length `len`. */
  function Bound(k: int, len: nat): (b: nat)
    ensures b <= len
    ensures 0 <= k <= len ==> b == k
    ensures k > len ==> b == len
    ensures -(len as int) <= k < 0 ==> b == len + k
    ensures k < -(len as int) ==> b == 0
  {
    if k < 0 then (if k + len < 0 then 0 else k + len) else if k > len then len else k
  }

  /** `s[:k]` */
  function Take<T>(s: seq<T>, k: int): seq<T>
  {
    s[..Bound(k, |s|)]
  }

  /** `s[k:]` */
  function Drop<T>(s: seq<T>, k: int): seq<T>
  {
    s[Bound(k, |s|)..]
  }
}
