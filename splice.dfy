/**
 * `Array.prototype.splice` as ECMAScript defines it, on sequences.
 *
 * The start position is clamped: a negative start counts from the end and is
 * raised to 0 if it is still negative (`max(len + start, 0)`), a start beyond the
 * end is lowered to `len`. The delete count is clamped to `[0, len - start]`.
 */
module ArraySplice {

  /** The position the splice actually starts at. */
  function StartIndex(len: nat, start: int): (k: nat)
    ensures k <= len
  {
    if start < 0 then (if len + start < 0 then 0 else len + start)
    else if start < len then start
    else len
  }

  /** The number of elements the splice actually removes. */
  function DeleteCount(len: nat, k: nat, deleteCount: int): (d: nat)
    requires k <= len
    ensures k + d <= len
  {
    if deleteCount < 0 then 0
    else if deleteCount < len - k then deleteCount
    else len - k
  }

  /** The array after `s.splice(start, deleteCount, ...items)`. */
  function Splice<T>(s: seq<T>, start: int, deleteCount: int, items: seq<T>): (r: seq<T>)
    ensures |r| == |s| - DeleteCount(|s|, StartIndex(|s|, start), deleteCount) + |items|
  {
    var k := StartIndex(|s|, start);
    s[..k] + items + s[k + DeleteCount(|s|, k, deleteCount)..]
  }

  /** Replacing one element at an index inside the array is a point update. */
  lemma SpliceReplaceAt<T>(s: seq<T>, i: nat, x: T)
    requires i < |s|
    ensures Splice(s, i, 1, [x]) == s[i := x]
  {
    assert Splice(s, i, 1, [x]) == s[..i] + [x] + s[i + 1..];
  }

  /** Removing one element at an index inside the array drops exactly that element. */
  lemma SpliceRemoveAt<T>(s: seq<T>, i: nat)
    requires i < |s|
    ensures Splice(s, i, 1, []) == s[..i] + s[i + 1..]
  {
    assert Splice(s, i, 1, []) == s[..i] + [] + s[i + 1..];
  }

  /** A start of -1 on a non-empty array addresses its last element. */
  lemma SpliceMinusOne<T>(s: seq<T>, items: seq<T>)
    requires |s| > 0
    ensures Splice(s, -1, 1, items) == s[..|s| - 1] + items
  {
    assert StartIndex(|s|, -1) == |s| - 1;
    assert DeleteCount(|s|, |s| - 1, 1) == 1;
    assert s[|s|..] == [];
  }

  /** A start of -1 on an empty array inserts the items and removes nothing. */
  lemma SpliceMinusOneEmpty<T>(items: seq<T>)
    ensures Splice([], -1, 1, items) == items
  {
    assert StartIndex(0, -1) == 0;
    assert DeleteCount(0, 0, 1) == 0;
  }
}
