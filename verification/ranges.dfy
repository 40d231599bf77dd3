/**
 The few pieces of Python's sequence vocabulary the light controller relies on:
 `list(range(start, stop, step))`, `reversed(...)` and the slices `s[k:]` and `s[:k]`,
 each written as an explicit sequence so that no language-specific range semantics
 leak into the rest of the model.
 */
module Ranges {

  /** `list(range(start, stop, step))`: start, start + step, ... while strictly before `stop`
      in the direction of `step`. Python rejects a zero step, hence the precondition. */
  function Range(start: int, stop: int, step: int): (r: seq<int>)
    requires step != 0
    ensures forall k :: 0 <= k < |r| ==> r[k] == start + k * step
    ensures forall k :: 0 <= k < |r| ==> if step > 0 then r[k] < stop else r[k] > stop
    ensures step > 0 ==> start + |r| * step >= stop
    ensures step < 0 ==> start + |r| * step <= stop
    decreases if step > 0 then stop - start else start - stop
  {
    if (step > 0 && start >= stop) || (step < 0 && start <= stop) then []
    else
      var rest := Range(start + step, stop, step);
      ShiftStep(start, step, rest);
      [start] + rest
  }

  /** One more step at the front: if `rest` lists start + step, start + 2 * step, ...
      then `[start] + rest` lists start, start + step, ... */
  lemma ShiftStep(start: int, step: int, rest: seq<int>)
    requires forall k :: 0 <= k < |rest| ==> rest[k] == start + step + k * step
    ensures forall k :: 0 <= k < |rest| + 1 ==> ([start] + rest)[k] == start + k * step
    ensures start + step + |rest| * step == start + (|rest| + 1) * step
  {
    forall k | 0 <= k < |rest| + 1
      ensures ([start] + rest)[k] == start + k * step
    {
      if k > 0 {
        assert rest[k - 1] == start + step + (k - 1) * step;
        assert (k - 1) * step + step == k * step;
      }
    }
    assert |rest| * step + step == (|rest| + 1) * step;
  }

  /** `range(n)` holds exactly the integers 0 .. n-1, each at its own position. */
  lemma UptoContents(n: nat)
    ensures |Range(0, n, 1)| == n
    ensures forall k :: 0 <= k < n ==> Range(0, n, 1)[k] == k
    ensures forall i :: i in Range(0, n, 1) <==> 0 <= i < n
  {
    var r := Range(0, n, 1);
    assert |r| == 0 || r[|r| - 1] == |r| - 1 < n;
    forall i | 0 <= i < n
      ensures i in r
    {
      assert r[i] == i;
    }
  }

  /** A range never repeats a value: its elements move strictly in the direction of `step`. */
  lemma RangeDistinct(start: int, stop: int, step: int)
    requires step != 0
    ensures Distinct(Range(start, stop, step))
  {
    var r := Range(start, stop, step);
    forall j, k | 0 <= j < k < |r|
      ensures r[j] != r[k]
    {
      StepsApart(j, k, step);
    }
  }

  /** Distinct step counts land on distinct multiples of a non-zero step. */
  lemma StepsApart(j: int, k: int, step: int)
    requires j < k && step != 0
    ensures j * step != k * step
  {
    var d := k - j;
    assert k * step == j * step + d * step;
    if step > 0 {
      assert d * step >= step;
    } else {
      assert d * step <= step;
    }
  }

  /** No index value occurs twice. */
  predicate Distinct(s: seq<int>)
  {
    forall j, k :: 0 <= j < k < |s| ==> s[j] != s[k]
  }

  /** `reversed(s)`: the same elements, last first. */
  function Reversed<T>(s: seq<T>): (r: seq<T>)
    ensures |r| == |s|
    ensures forall k :: 0 <= k < |s| ==> r[k] == s[|s| - 1 - k]
  {
    seq(|s|, k requires 0 <= k < |s| => s[|s| - 1 - k])
  }

  /** Reversal changes the order of the elements and nothing else. */
  lemma ReversedMembers(s: seq<int>)
    ensures forall x :: x in Reversed(s) <==> x in s
  {
    var r := Reversed(s);
    forall x | x in s
      ensures x in r
    {
      var k :| 0 <= k < |s| && s[k] == x;
      assert r[|s| - 1 - k] == x;
    }
  }

  /** Python's `s[k:]`: everything from position k on, empty when k is past the end. */
  function Drop<T>(s: seq<T>, k: nat): (r: seq<T>)
    ensures |s| <= k ==> r == []
    ensures |s| > k ==> |r| == |s| - k && forall j :: 0 <= j < |r| ==> r[j] == s[k + j]
  {
    if |s| <= k then [] else s[k..]
  }
}
