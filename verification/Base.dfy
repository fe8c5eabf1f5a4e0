/** Small vocabulary shared by every part of the model. */
module Base {

  datatype Option<+T> = None | Some(value: T)

  /** A set whose members are pairwise equal has at most one member. */
  lemma PairwiseEqualIsSmall<T>(s: set<T>)
    requires forall x, y :: x in s && y in s ==> x == y
    ensures |s| <= 1
  {
    if s != {} {
      var x :| x in s;
      assert s == {x};
    }
  }
}
