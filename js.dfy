/** The few JavaScript built-ins the components rely on: nullable values,
    truthiness of an optional string, and Array.prototype's find,
    findIndex, slice and index assignment, with their edge cases. */
module Js {

  /** A value that may be `null` (or `undefined`). */
  datatype Option<+T> = None | Some(value: T)

  /** `x` used as a condition (`x && ...`, `!x`) when `x` is a string or
      null: null and the empty string are falsy, every other string is
      truthy. */
  predicate Truthy(x: Option<string>) {
    x.Some? && x.value != ""
  }

  /** `s.findIndex(p)`: the index of the first element satisfying `p`,
      or -1 when there is none. */
  function FindIndex<T>(s: seq<T>, p: T -> bool): (r: int)
    ensures -1 <= r < |s|
    ensures r == -1 <==> forall i :: 0 <= i < |s| ==> !p(s[i])
    ensures 0 <= r ==> p(s[r]) && forall i :: 0 <= i < r ==> !p(s[i])
  {
    if |s| == 0 then -1
    else if p(s[0]) then 0
    else
      var k := FindIndex(s[1..], p);
      if k == -1 then -1 else k + 1
  }

  /** `s.find(p)`: the first element satisfying `p`, or undefined. */
  function Find<T>(s: seq<T>, p: T -> bool): (r: Option<T>)
    ensures r.None? <==> forall i :: 0 <= i < |s| ==> !p(s[i])
    ensures r.Some? ==> exists i :: 0 <= i < |s| && s[i] == r.value && p(s[i]) &&
                                    forall j :: 0 <= j < i ==> !p(s[j])
  {
    var k := FindIndex(s, p);
    if k < 0 then None else Some(s[k])
  }

  /** When at most one element satisfies `p`, `find` returns exactly that
      element. */
  lemma FindUnique<T>(s: seq<T>, p: T -> bool, i: nat)
    requires i < |s| && p(s[i])
    requires forall j :: 0 <= j < |s| && j != i ==> !p(s[j])
    ensures FindIndex(s, p) == i
    ensures Find(s, p) == Some(s[i])
  {
  }

  /** `s.slice(start)` with one argument: a negative `start` counts back
      from the end (and is clamped to 0), a start past the end gives the
      empty array. The result is always a suffix of `s`. */
  function SliceFrom<T>(s: seq<T>, start: int): (r: seq<T>)
    ensures |r| <= |s| && r == s[|s| - |r|..]
    ensures 0 <= start <= |s| ==> |r| == |s| - start
    ensures start < 0 ==> |r| == if |s| + start < 0 then |s| else -start
    ensures |s| < start ==> r == []
  {
    var from := if start < 0 then (if |s| + start < 0 then 0 else |s| + start)
                else if start > |s| then |s| else start;
    s[from..]
  }

  /** `s.slice(0, end)` for a non-negative `end`: the first `end` elements,
      or all of them when there are fewer. */
  function SliceTo<T>(s: seq<T>, end: nat): (r: seq<T>)
    ensures |r| == if end < |s| then end else |s|
    ensures r == s[..|r|]
  {
    if end < |s| then s[..end] else s
  }

  /** `a[i] = v` on a JavaScript array: an index past the end grows the
      array, and the holes in between read as undefined. */
  function Assign<T>(s: seq<Option<T>>, i: nat, v: Option<T>): (r: seq<Option<T>>)
    ensures |r| == if i < |s| then |s| else i + 1
    ensures r[i] == v
    ensures forall j :: 0 <= j < |s| && j != i ==> r[j] == s[j]
    ensures forall j :: |s| <= j < |r| && j != i ==> r[j] == None
  {
    if i < |s| then s[i := v] else s + seq(i - |s|, _ => None) + [v]
  }
}
