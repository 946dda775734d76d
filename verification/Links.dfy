/** Sequences as lists of linked things. */
module Links {
  ghost predicate Distinct<T>(s: seq<T>) {
    forall j, k :: 0 <= j < k < |s| ==> s[j] != s[k]
  }

  /** What comes after the k-th, or `end` after the last. */
  ghost function After(s: seq<int>, k: int, end: int): int
    requires -1 <= k < |s|
  {
    if k + 1 < |s| then s[k + 1] else end
  }
}
