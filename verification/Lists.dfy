/** Lists of distinct elements, as linked lists are modelled here. */
module Lists {
  ghost predicate NoDup<T>(l: seq<T>) {
    forall i, j | 0 <= i < j < |l| :: l[i] != l[j]
  }

  function RemoveAt<T>(l: seq<T>, i: nat): seq<T>
    requires i < |l|
  {
    l[..i] + l[i + 1..]
  }

  lemma RemoveAtFacts<T>(l: seq<T>, i: nat)
    requires i < |l| && NoDup(l)
    ensures NoDup(RemoveAt(l, i))
    ensures forall e :: e in RemoveAt(l, i) <==> e in l && e != l[i]
  {
    forall e | e in l && e != l[i]
      ensures e in RemoveAt(l, i)
    {
      var j :| 0 <= j < |l| && l[j] == e;
      assert RemoveAt(l, i)[if j < i then j else j - 1] == e;
    }
  }
}
