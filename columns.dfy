/**
 * Column bookkeeping of components/DealsTable.tsx: the default column order (line 213),
 * the drag-to-reorder step (lines 401-416) and the visibility adapter (line 225).
 */
module Columns {
  import opened Wrappers

  /** `columns.map(c => c.id ?? c.accessorKey)`: the eight leaf columns in definition order. */
  function DefaultColumnOrder(): (ids: seq<string>)
    ensures |ids| == 8 && ids[0] == "select"
    ensures forall i, j :: 0 <= i < j < |ids| ==> ids[i] != ids[j]
  {
    ["select", "company", "owner", "stage", "amount", "status", "created", "notes"]
  }

  /** The number of leaf columns, hidden ones included (`table.getAllLeafColumns().length`). */
  const LeafColumnCount := 8

  /** `s.indexOf(x)`: the first position of `x`, or -1. */
  function IndexOf(s: seq<string>, x: string): (i: int)
    ensures -1 <= i < |s|
    ensures i >= 0 ==> s[i] == x && forall k :: 0 <= k < i ==> s[k] != x
    ensures i == -1 ==> x !in s
  {
    if s == [] then -1
    else if s[0] == x then 0
    else var j := IndexOf(s[1..], x); if j == -1 then -1 else j + 1
  }

  /** `splice(k, 1)`: `s` without its element at `k`. */
  function RemoveAt<T>(s: seq<T>, k: nat): (r: seq<T>)
    requires k < |s|
    ensures |r| == |s| - 1
    ensures forall i :: 0 <= i < k ==> r[i] == s[i]
    ensures forall i :: k <= i < |r| ==> r[i] == s[i + 1]
  {
    s[..k] + s[k + 1..]
  }

  /** `splice(k, 0, x)`: `x` inserted before position `k`. */
  function InsertAt<T>(s: seq<T>, k: nat, x: T): (r: seq<T>)
    requires k <= |s|
    ensures |r| == |s| + 1 && r[k] == x
    ensures forall i :: 0 <= i < k ==> r[i] == s[i]
    ensures forall i :: k < i < |r| ==> r[i] == s[i - 1]
  {
    s[..k] + [x] + s[k..]
  }

  /** The drag threshold in pixels. */
  const Threshold := 12

  function Abs(x: int): nat { if x < 0 then -x else x }

  /**
   * One `onMove` of a header drag: `start` is the order when the drag began, `idx` is
   * `start.indexOf(columnId)` and `delta` the pointer's displacement from where the drag
   * began.  `None` means `setColumnOrder` is not called.  A negative `idx` is passed to
   * `splice` as JavaScript does, where it counts from the end.
   */
  function ReorderStep(start: seq<string>, idx: int, delta: int): (r: Option<seq<string>>)
    requires |start| > 0 && -1 <= idx < |start|
    ensures r.Some? ==> |r.value| == |start|
  {
    if Abs(delta) < Threshold then None
    else
      var newIdx := if delta > 0 then if idx + 1 < |start| - 1 then idx + 1 else |start| - 1
                    else if 0 > idx - 1 then 0 else idx - 1;
      if newIdx == idx then None
      else
        var from := if idx < 0 then |start| + idx else idx;
        Some(InsertAt(RemoveAt(start, from), newIdx, start[from]))
  }

  /** `s` with the elements at `i` and `j` exchanged. */
  function Swap(s: seq<string>, i: nat, j: nat): (r: seq<string>)
    requires i < |s| && j < |s|
    ensures |r| == |s| && r[i] == s[j] && r[j] == s[i]
    ensures forall k :: 0 <= k < |s| && k != i && k != j ==> r[k] == s[k]
  {
    s[i := s[j]][j := s[i]]
  }

  /** Below the threshold nothing moves. */
  lemma ReorderBelowThreshold(start: seq<string>, idx: int, delta: int)
    requires |start| > 0 && -1 <= idx < |start| && Abs(delta) < Threshold
    ensures ReorderStep(start, idx, delta) == None
  {
  }

  /** Taking an element out and putting it back elsewhere permutes the sequence. */
  lemma MovePermutes<T>(s: seq<T>, from: nat, to: nat)
    requires from < |s| && to < |s|
    ensures multiset(InsertAt(RemoveAt(s, from), to, s[from])) == multiset(s)
  {
    var x := s[from];
    var rem := RemoveAt(s, from);
    assert s == s[..from] + [x] + s[from + 1..];
    assert multiset(rem) + multiset{x} == multiset(s);
    assert rem == rem[..to] + rem[to..];
    assert multiset(InsertAt(rem, to, x)) == multiset(rem[..to]) + multiset{x} + multiset(rem[to..]);
  }

  /** A step that moves something yields a permutation of the start order. */
  lemma ReorderPermutes(start: seq<string>, idx: int, delta: int)
    requires |start| > 0 && -1 <= idx < |start|
    ensures var r := ReorderStep(start, idx, delta);
      r.Some? ==> multiset(r.value) == multiset(start)
  {
    var from := if idx < 0 then |start| + idx else idx;
    var newIdx := if delta > 0 then if idx + 1 < |start| - 1 then idx + 1 else |start| - 1
                  else if 0 > idx - 1 then 0 else idx - 1;
    if Abs(delta) >= Threshold && newIdx != idx {
      MovePermutes(start, from, newIdx);
    }
  }

  /** A column already at the end it is dragged towards stays where it is. */
  lemma ReorderAtEnd(start: seq<string>, idx: int, delta: int)
    requires |start| > 0 && 0 <= idx < |start|
    requires (delta > 0 && idx == |start| - 1) || (delta < 0 && idx == 0)
    ensures ReorderStep(start, idx, delta) == None
  {
  }

  /** Past the threshold to the right, the column trades places with its right neighbour. */
  lemma ReorderRight(start: seq<string>, idx: int, delta: int)
    requires 0 <= idx < |start| - 1 && delta >= Threshold
    ensures ReorderStep(start, idx, delta) == Some(Swap(start, idx, idx + 1))
  {
    var rem := RemoveAt(start, idx);
    assert rem[..idx + 1] == start[..idx] + [start[idx + 1]];
    assert rem[idx + 1..] == start[idx + 2..];
    var r := InsertAt(rem, idx + 1, start[idx]);
    assert r == start[..idx] + [start[idx + 1], start[idx]] + start[idx + 2..];
    assert r == Swap(start, idx, idx + 1);
  }

  /** Past the threshold to the left, the column trades places with its left neighbour. */
  lemma ReorderLeft(start: seq<string>, idx: int, delta: int)
    requires 0 < idx < |start| && delta <= -Threshold
    ensures ReorderStep(start, idx, delta) == Some(Swap(start, idx - 1, idx))
  {
    var rem := RemoveAt(start, idx);
    assert rem[..idx - 1] == start[..idx - 1];
    assert rem[idx - 1..] == [start[idx - 1]] + start[idx + 1..];
    var r := InsertAt(rem, idx - 1, start[idx]);
    assert r == start[..idx - 1] + [start[idx], start[idx - 1]] + start[idx + 1..];
    assert r == Swap(start, idx - 1, idx);
  }

  /**
   * A column whose id is missing from the order (`indexOf` gives -1) makes every drag past
   * the threshold move the LAST column to the front, because `splice(-1, 1)` removes the last
   * element.
   */
  lemma ReorderMissingColumn(start: seq<string>, delta: int)
    requires |start| > 0 && Abs(delta) >= Threshold
    ensures ReorderStep(start, -1, delta) == Some([start[|start| - 1]] + start[..|start| - 1])
  {
    var rem := RemoveAt(start, |start| - 1);
    assert rem == start[..|start| - 1];
    assert InsertAt(rem, 0, start[|start| - 1]) == [start[|start| - 1]] + rem;
  }

  /** `{ k: !hidden[k] }` for every key of the store's `hidden` map. */
  function Visibility(hidden: map<string, bool>): (visible: map<string, bool>)
    ensures visible.Keys == hidden.Keys
    ensures forall k :: k in visible ==> visible[k] != hidden[k]
  {
    map k | k in hidden :: !hidden[k]
  }

  /** The adapter loses nothing: applying it twice gives back the store's map. */
  lemma VisibilityInvolution(hidden: map<string, bool>)
    ensures Visibility(Visibility(hidden)) == hidden
  {
  }

  /** A column marked hidden in the store is not visible, and one marked not hidden is. */
  lemma VisibilityOfColumn(hidden: map<string, bool>, k: string)
    requires k in hidden
    ensures Visibility(hidden)[k] <==> !hidden[k]
  {
  }
}
