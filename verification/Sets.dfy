/** Facts about sets that the other modules share. */
module Sets {
  lemma Nonempty(s: set<int>)
    requires s != {}
    ensures exists x :: x in s
  {
    if forall x: int :: x !in s {
      assert false;
    }
  }
}
