/** Small datatypes and sequence functions shared by the models. */
module Basics {

  datatype Option<+T> = None | Some(value: T)

  datatype Result<+T> = Ok(value: T) | Err(message: string)

  /** The elements that satisfy `p`, in order. */
  function Filter<T>(p: T -> bool, ts: seq<T>): seq<T> {
    if ts == [] then []
    else if p(ts[0]) then [ts[0]] + Filter(p, ts[1..])
    else Filter(p, ts[1..])
  }

  lemma {:induction false} FilterMembers<T(!new)>(p: T -> bool, ts: seq<T>)
    ensures forall t :: t in Filter(p, ts) <==> t in ts && p(t)
  {
    if ts != [] {
      FilterMembers(p, ts[1..]);
      assert forall t :: t in ts <==> t == ts[0] || t in ts[1..];
    }
  }

  lemma {:induction false} FilterNone<T(!new)>(p: T -> bool, ts: seq<T>)
    requires forall t | t in ts :: !p(t)
    ensures Filter(p, ts) == []
  {
    if ts != [] { FilterNone(p, ts[1..]); }
  }

  ghost predicate Pairwise<T(!new)>(rel: (T, T) -> bool, ts: seq<T>) {
    forall i, j :: 0 <= i < j < |ts| ==> rel(ts[i], ts[j])
  }

  /** A relation between all earlier and later elements survives filtering. */
  lemma {:induction false} FilterPairwise<T(!new)>(p: T -> bool, rel: (T, T) -> bool, ts: seq<T>)
    requires Pairwise(rel, ts)
    ensures Pairwise(rel, Filter(p, ts))
  {
    if ts != [] {
      FilterPairwise(p, rel, ts[1..]);
      FilterMembers(p, ts[1..]);
      var tail := Filter(p, ts[1..]);
      forall j | 0 <= j < |tail|
        ensures rel(ts[0], tail[j])
      {
        assert tail[j] in ts[1..];
      }
    }
  }
}
