/** Declarations that every module uses. */
module Basics {

  /** A value that may be absent: a nullable column, a nil pointer, a miss. */
  datatype Option<+T> = None | Some(value: T)

  type Time = int          // instants and durations, in nanoseconds

  type TenantId = nat

  function Min(a: int, b: int): int { if a <= b then a else b }

  ghost predicate Distinct<T(!new)>(s: seq<T>) {
    forall i, j :: 0 <= i < j < |s| ==> s[i] != s[j]
  }

  lemma MemberOfNonEmpty<T(!new)>(s: seq<T>)
    ensures s != [] ==> exists t :: t in s
  {
    if s != [] { assert s[0] in s; }
  }
}
