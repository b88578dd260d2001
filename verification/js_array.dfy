/**
 `Array.prototype.splice` without inserted items (ECMA-262, 2022 edition,
 section 23.1.3.29): the start normalisation, the clamping of the delete
 count, the array left behind and the array of removed elements.

 Start and delete count are modelled as integers; the conversion
 ToIntegerOrInfinity of arbitrary numbers is not part of this model.
 */
module JsArray {

  function Min(a: int, b: int): int { if a <= b then a else b }
  function Max(a: int, b: int): int { if a <= b then b else a }

  /**
   The start normalisation: a negative start counts back from the end and is
   floored at 0; a start past the end is clamped to the length.
   */
  function ActualStart(relativeStart: int, len: nat): (k: nat)
    ensures k <= len
    ensures 0 <= relativeStart <= len ==> k == relativeStart
    ensures len <= relativeStart ==> k == len
    ensures relativeStart < 0 <= len + relativeStart ==> k == len + relativeStart
    ensures len + relativeStart < 0 ==> k == 0
  {
    if relativeStart < 0 then Max(len + relativeStart, 0) else Min(relativeStart, len)
  }

  /** The delete count is clamped to `[0, len - actualStart]`. */
  function ActualDeleteCount(deleteCount: int, len: nat, actualStart: nat): (n: nat)
    requires actualStart <= len
    ensures actualStart + n <= len
    ensures n <= deleteCount || n == 0
    ensures deleteCount <= 0 ==> n == 0
    ensures 0 <= deleteCount <= len - actualStart ==> n == deleteCount
    ensures len - actualStart <= deleteCount ==> n == len - actualStart
  {
    Min(Max(deleteCount, 0), len - actualStart)
  }

  /** What `splice` leaves in the array and what it returns. */
  datatype Spliced<T> = Spliced(remaining: seq<T>, removed: seq<T>)

  /** `a.splice(start, deleteCount)` with no items to insert. */
  function Splice<T>(a: seq<T>, start: int, deleteCount: int): (r: Spliced<T>)
    ensures var k := ActualStart(start, |a|);
            && |r.removed| == ActualDeleteCount(deleteCount, |a|, k)
            && |r.remaining| + |r.removed| == |a|
            && r.remaining[..k] == a[..k]
            && r.removed == a[k..k + |r.removed|]
            && r.remaining[k..] == a[k + |r.removed|..]
  {
    var k := ActualStart(start, |a|);
    var n := ActualDeleteCount(deleteCount, |a|, k);
    Spliced(a[..k] + a[k + n..], a[k..k + n])
  }

  /**
   Putting the removed elements back where they were taken from restores
   the original array.
   */
  lemma SpliceRestore<T>(a: seq<T>, start: int, deleteCount: int)
    ensures var r := Splice(a, start, deleteCount);
            var k := ActualStart(start, |a|);
            a == r.remaining[..k] + r.removed + r.remaining[k..]
  {
  }

  /** Splicing only ever loses elements: nothing is invented or duplicated. */
  lemma SplicePermutes<T>(a: seq<T>, start: int, deleteCount: int)
    ensures var r := Splice(a, start, deleteCount);
            multiset(a) == multiset(r.remaining) + multiset(r.removed)
  {
    var r := Splice(a, start, deleteCount);
    var k := ActualStart(start, |a|);
    SpliceRestore(a, start, deleteCount);
    calc {
      multiset(a);
      multiset(r.remaining[..k] + r.removed + r.remaining[k..]);
      multiset(r.remaining[..k]) + multiset(r.removed) + multiset(r.remaining[k..]);
      { assert r.remaining == r.remaining[..k] + r.remaining[k..]; }
      multiset(r.remaining) + multiset(r.removed);
    }
  }

  /**
   Deleting one element: some element goes exactly when the array is
   non-empty and the start does not point past its end.
   */
  lemma SpliceOneRemovesIff<T>(a: seq<T>, start: int)
    ensures |Splice(a, start, 1).removed| == (if |a| > 0 && start < |a| then 1 else 0)
  {
  }
}
