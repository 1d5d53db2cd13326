/** The two index-based list edits the page performs on a board's items:
    `filter((_, i) => i !== index)` and `map((t, i) => i === index ? v : t)`.
    Both walk the list element by element with a running index, as the
    JavaScript array methods do; their contracts say what that walk amounts
    to for the list as a whole. */
module ListEdits {

  /** `xs.filter((_, i) => i !== index)` on the part of a list whose first
      element carries the running index `from`. */
  function KeepAllBut<T>(xs: seq<T>, index: nat, from: nat): (r: seq<T>)
    ensures from <= index < from + |xs| ==>
              r == xs[..index - from] + xs[index - from + 1..]
    ensures !(from <= index < from + |xs|) ==> r == xs
  {
    if xs == [] then []
    else (if from != index then [xs[0]] else []) + KeepAllBut(xs[1..], index, from + 1)
  }

  /** Deleting position `index`: the items before it stay where they are,
      the items after it move down by one, and an index past the end
      removes nothing. */
  function RemoveAt<T>(xs: seq<T>, index: nat): (r: seq<T>)
    ensures index < |xs| ==> r == xs[..index] + xs[index + 1..]
    ensures index < |xs| ==> |r| == |xs| - 1
    ensures index < |xs| ==> forall k :: 0 <= k < index ==> r[k] == xs[k]
    ensures index < |xs| ==> forall k :: index <= k < |r| ==> r[k] == xs[k + 1]
    ensures index >= |xs| ==> r == xs
    ensures multiset(r) <= multiset(xs)
  {
    assert index < |xs| ==> xs == xs[..index] + [xs[index]] + xs[index + 1..];
    KeepAllBut(xs, index, 0)
  }

  /** `xs.map((t, i) => i === index ? v : t)` on the part of a list whose
      first element carries the running index `from`. */
  function MapReplace<T>(xs: seq<T>, index: nat, v: T, from: nat): (r: seq<T>)
    ensures |r| == |xs|
    ensures forall k :: 0 <= k < |xs| ==> r[k] == if from + k == index then v else xs[k]
  {
    if xs == [] then []
    else [if from == index then v else xs[0]] + MapReplace(xs[1..], index, v, from + 1)
  }

  /** Replacing position `index` by `v`: the length is kept, only that
      position changes, and an index past the end changes nothing. */
  function ReplaceAt<T>(xs: seq<T>, index: nat, v: T): (r: seq<T>)
    ensures index < |xs| ==> r == xs[index := v]
    ensures index >= |xs| ==> r == xs
  {
    MapReplace(xs, index, v, 0)
  }
}
