/** Counting dictionaries: how often each item of a list occurs. */
module Counting {
  import opened Logs

  ghost predicate Counted<T(!new)>(counts: map<T, nat>, items: seq<T>) {
    && (forall x :: x in counts <==> x in items)
    && (forall x :: x in counts ==> counts[x] == multiset(items)[x])
  }

  lemma CountOne<T(!new)>(counts: map<T, nat>, items: seq<T>, x: T)
    requires Counted(counts, items)
    ensures Counted(counts[x := (if x in counts then counts[x] else 0) + 1], items + [x])
  {
    if x !in items {
      assert x !in multiset(items);
    }
  }

  lemma {:induction false} DistinctByCount<T>(items: seq<T>)
    ensures Distinct(items) <==> forall x :: x in items ==> multiset(items)[x] <= 1
  {
    if items != [] {
      var init, last := items[..|items| - 1], items[|items| - 1];
      assert items == init + [last];
      DistinctByCount(init);
      if Distinct(items) {
        assert forall i, j :: 0 <= i < j < |init| ==> items[i] != items[j];
        assert last !in init;
        assert last !in multiset(init);
      } else if Distinct(init) {
        var i, j :| 0 <= i < j < |items| && items[i] == items[j];
        assert forall k, l :: 0 <= k < l < |init| ==> items[k] != items[l];
        assert last in init;
        assert last in multiset(init);
        assert multiset(items)[last] >= 2 && last in items;
      } else {
        var x :| x in init && multiset(init)[x] > 1;
        assert multiset(items)[x] > 1 && x in items;
      }
    }
  }
}
