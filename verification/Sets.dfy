/** Sizes of finite sets. */
module Sets {
  lemma SubsetSize<T>(a: set<T>, c: set<T>)
    requires a <= c
    ensures |a| <= |c| && (|a| == |c| ==> a == c)
  {
    assert c == a + (c - a);
  }
}
