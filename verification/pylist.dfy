/**
 The two methods of Python's built-in `list` that the registry handlers use
 to locate a record by VALUE: `list.index` and `list.remove`. Both scan from
 the front and stop at the first element equal to the argument; both raise
 `ValueError` when there is none, which is `None` here.
 */
module PyList {
  import opened Wrappers

  /** `i` is the position of the first element of `s` equal to `x`. */
  predicate FirstOccurrence<T(==)>(s: seq<T>, x: T, i: nat) {
    i < |s| && s[i] == x && forall j :: 0 <= j < i ==> s[j] != x
  }

  /** `s.index(x)`: the position of the first element equal to `x`. */
  function ListIndex<T(==)>(s: seq<T>, x: T): (r: Option<nat>)
    ensures r.Some? <==> x in s
    ensures r.Some? ==> FirstOccurrence(s, x, r.value)
  {
    if |s| == 0 then None
    else if s[0] == x then Some(0)
    else match ListIndex(s[1..], x)
      case None => None
      case Some(i) => Some(i + 1)
  }

  /** `s.remove(x)`: the list without its first element equal to `x`. */
  function ListRemove<T(==)>(s: seq<T>, x: T): (r: Option<seq<T>>)
    ensures r.Some? <==> x in s
    ensures forall i: nat :: FirstOccurrence(s, x, i) ==> r == Some(s[..i] + s[i + 1..])
  {
    if |s| == 0 then None
    else if s[0] == x then
      assert s[..0] + s[1..] == s[1..];
      Some(s[1..])
    else match ListRemove(s[1..], x)
      case None => None
      case Some(t) =>
        RemoveStep(s, x);
        Some([s[0]] + t)
  }

  /** A first occurrence past the head is the tail's first occurrence, one position back. */
  lemma RemoveStep<T>(s: seq<T>, x: T)
    requires |s| > 0 && s[0] != x
    ensures forall i: nat :: FirstOccurrence(s, x, i) ==>
      i > 0 && FirstOccurrence(s[1..], x, i - 1) && s[..i] + s[i + 1..] == [s[0]] + (s[1..][..i - 1] + s[1..][i..])
  {
    forall i: nat | FirstOccurrence(s, x, i)
      ensures i > 0 && FirstOccurrence(s[1..], x, i - 1)
      ensures s[..i] + s[i + 1..] == [s[0]] + (s[1..][..i - 1] + s[1..][i..])
    {
      assert s[..i] == [s[0]] + s[1..][..i - 1];
    }
  }

  /** Cutting position `i` out of a sequence takes one copy of `s[i]` out of its multiset. */
  lemma CutOneCopy<T>(s: seq<T>, i: nat)
    requires i < |s|
    ensures multiset(s[..i] + s[i + 1..]) == multiset(s) - multiset{s[i]}
  {
    assert s == s[..i] + [s[i]] + s[i + 1..];
  }

  /** `s.remove(x)` takes exactly one copy of `x` out of the list and keeps everything else. */
  lemma RemoveTakesOneCopy<T>(s: seq<T>, x: T)
    requires x in s
    ensures ListRemove(s, x).Some?
    ensures |ListRemove(s, x).value| == |s| - 1
    ensures multiset(ListRemove(s, x).value) == multiset(s) - multiset{x}
  {
    var i := ListIndex(s, x).value;
    CutOneCopy(s, i);
  }
}
