/** Lists of lists, end to end. */
module Lists {

  function Flatten<T>(lists: seq<seq<T>>): seq<T> {
    if lists == [] then [] else Flatten(lists[..|lists| - 1]) + lists[|lists| - 1]
  }

  lemma FlattenLast<T>(lists: seq<seq<T>>, last: seq<T>)
    ensures Flatten(lists + [last]) == Flatten(lists) + last
  {
    assert (lists + [last])[..|lists|] == lists;
  }
}
