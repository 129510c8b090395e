/** Facts about event logs: how often an event occurs and where it occurs first. */
module Traces {

  /** Number of occurrences of `e` in `t`, counted from the end so that
      appending one event unfolds in one step. */
  function Count<T(==)>(t: seq<T>, e: T): (n: nat)
    ensures n <= |t|
  {
    if t == [] then 0 else Count(t[..|t| - 1], e) + (if t[|t| - 1] == e then 1 else 0)
  }

  lemma CountSnoc<T>(t: seq<T>, x: T, e: T)
    ensures Count(t + [x], e) == Count(t, e) + (if x == e then 1 else 0)
  {
    assert (t + [x])[..|t|] == t;
  }

  lemma {:induction false} CountZero<T>(t: seq<T>, e: T)
    ensures Count(t, e) == 0 <==> e !in t
  {
    if t != [] {
      CountZero(t[..|t| - 1], e);
      assert t == t[..|t| - 1] + [t[|t| - 1]];
    }
  }

  /** Position of the first occurrence of `e` in `t`. */
  function IndexOf<T(==)>(t: seq<T>, e: T): (i: nat)
    requires e in t
    ensures i < |t| && t[i] == e && e !in t[..i]
  {
    if t[0] == e then 0 else 1 + IndexOf(t[1..], e)
  }
}
