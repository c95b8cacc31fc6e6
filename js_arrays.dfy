/** The pieces of JavaScript's array library the code relies on, over sequences. */
module JsArrays {
  import opened Wrappers

  /** `rows.find(p)`, given as the index of the element it finds: the first one satisfying `p`. */
  function FindIndex<T>(rows: seq<T>, p: T -> bool): (r: Option<nat>)
    ensures r.Some? ==> r.value < |rows| && p(rows[r.value])
    ensures r.Some? ==> forall j :: 0 <= j < r.value ==> !p(rows[j])
    ensures r.None? ==> forall j :: 0 <= j < |rows| ==> !p(rows[j])
  {
    if |rows| == 0 then None
    else if p(rows[0]) then Some(0)
    else
      match FindIndex(rows[1..], p)
      case Some(i) => Some(i + 1)
      case None => None
  }

  /** `s.filter(p)`: the elements satisfying `p`, in order. */
  function Filter<T(!new)>(s: seq<T>, p: T -> bool): (r: seq<T>)
    ensures |r| <= |s|
    ensures forall x :: x in r <==> x in s && p(x)
    ensures r == [] <==> forall i | 0 <= i < |s| :: !p(s[i])
  {
    if |s| == 0 then []
    else (if p(s[0]) then [s[0]] else []) + Filter(s[1..], p)
  }

  /** `s.filter((_, j) => j !== i)`: every element whose index is not `i`. */
  function WithoutIndex<T>(s: seq<T>, i: int): (r: seq<T>)
    ensures |r| == if 0 <= i < |s| then |s| - 1 else |s|
  {
    if |s| == 0 then []
    else WithoutIndex(s[..|s| - 1], i) + (if |s| - 1 != i then [s[|s| - 1]] else [])
  }

  /** Dropping an index in range removes exactly that element and keeps the rest in order. */
  lemma {:induction false} WithoutIndexInRange<T>(s: seq<T>, i: int)
    requires 0 <= i < |s|
    ensures WithoutIndex(s, i) == s[..i] + s[i + 1..]
    decreases |s|
  {
    var init := s[..|s| - 1];
    if i < |s| - 1 {
      WithoutIndexInRange(init, i);
      assert init[..i] == s[..i];
      assert init[i + 1..] + [s[|s| - 1]] == s[i + 1..];
    } else {
      WithoutIndexOutOfRange(init, i);
      assert s[i + 1..] == [];
    }
  }

  /** An index out of range removes nothing. */
  lemma {:induction false} WithoutIndexOutOfRange<T>(s: seq<T>, i: int)
    requires !(0 <= i < |s|)
    ensures WithoutIndex(s, i) == s
    decreases |s|
  {
    if |s| > 0 {
      WithoutIndexOutOfRange(s[..|s| - 1], i);
      assert s[..|s| - 1] + [s[|s| - 1]] == s;
    }
  }
}
