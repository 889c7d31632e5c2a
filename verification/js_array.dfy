/** The ECMAScript array operations the upload component uses, as sequence
    functions: `slice(0, end)`, `splice(start, 1)` and the index-based
    `filter((_, i) => i !== index)`. */
module JsArray {

  /** The relative-index rule of `slice` and `splice` (ECMAScript,
      Array.prototype.slice, steps for "relativeEnd"): a negative argument
      counts from the end, and the result is clamped to `[0, len]`. */
  function RelativeIndex(rel: int, len: nat): (k: nat)
    ensures k <= len
    ensures 0 <= rel ==> k == if rel < len then rel else len
    ensures rel < 0 && -rel <= len ==> k - rel == len
    ensures rel < 0 && -rel > len ==> k == 0
  {
    if rel < 0 then (if len + rel < 0 then 0 else len + rel)
    else if rel < len then rel
    else len
  }

  /** `s.slice(0, end)`: the leading part of `s` up to the relative end. */
  function SliceTo<T>(s: seq<T>, end: int): (r: seq<T>)
    ensures r <= s
    ensures |r| == RelativeIndex(end, |s|)
  {
    s[..RelativeIndex(end, |s|)]
  }

  /** `r` is `s` with the element at position `k` taken out and every other
      element kept in its relative order. */
  ghost predicate RemovedAt<T>(s: seq<T>, r: seq<T>, k: int) {
    && 0 <= k < |s|
    && |r| + 1 == |s|
    && (forall i :: 0 <= i < k ==> r[i] == s[i])
    && (forall i :: k <= i < |r| ==> r[i] == s[i + 1])
  }

  /** `s.filter((_, i) => i !== index)`: keep every position but `index`. */
  function WithoutIndex<T>(s: seq<T>, index: int): (r: seq<T>)
    ensures 0 <= index < |s| ==> RemovedAt(s, r, index)
    ensures !(0 <= index < |s|) ==> r == s
    decreases |s|
  {
    if s == [] then []
    else
      var init := WithoutIndex(s[..|s| - 1], index);
      if |s| - 1 == index then init else init + [s[|s| - 1]]
  }

  /** A copy of `s` after `copy.splice(start, 1)`: removes the element at
      the relative position `start`, if there is one. */
  function SpliceOne<T>(s: seq<T>, start: int): (r: seq<T>)
    ensures RelativeIndex(start, |s|) < |s| ==> RemovedAt(s, r, RelativeIndex(start, |s|))
    ensures RelativeIndex(start, |s|) == |s| ==> r == s
  {
    var k := RelativeIndex(start, |s|);
    if k < |s| then s[..k] + s[k + 1..] else s
  }

  /** Removing a position says everything about the result. */
  lemma RemovedAtUnique<T>(s: seq<T>, a: seq<T>, b: seq<T>, k: int)
    requires RemovedAt(s, a, k) && RemovedAt(s, b, k)
    ensures a == b
  {
  }

  /** For a non-negative index the filter and the splice remove the same
      element, so they produce the same list. */
  lemma FilterAgreesWithSplice<T>(s: seq<T>, index: int)
    requires 0 <= index
    ensures WithoutIndex(s, index) == SpliceOne(s, index)
  {
  }

  /** For a negative index they part ways: the filter matches no position,
      while the splice counts from the end and removes the last element. */
  lemma NegativeIndexSplitsFilterAndSplice<T>(s: seq<T>)
    requires |s| > 0
    ensures WithoutIndex(s, -1) == s
    ensures SpliceOne(s, -1) == s[..|s| - 1]
  {
  }
}
