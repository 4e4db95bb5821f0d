/** A non-empty set has a member: stated per element type, for loops that visit a map in arbitrary order. */
module Sets {
  import opened Bytes

  lemma EmptyOrInt64(s: set<Int64>)
    ensures s == {} || exists x :: x in s
  {
  }

  lemma EmptyOrString(s: set<string>)
    ensures s == {} || exists x :: x in s
  {
  }
}
