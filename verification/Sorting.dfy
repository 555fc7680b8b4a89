/** Stable sorting by a key, and selecting from a sequence in order. */
module Sorting {
  import opened Words

  function Insert<T>(key: T -> int, x: T, xs: seq<T>): seq<T> {
    if xs == [] || key(x) <= key(xs[0]) then [x] + xs else [xs[0]] + Insert(key, x, xs[1..])
  }

  function StableSort<T>(key: T -> int, xs: seq<T>): seq<T> {
    if xs == [] then [] else Insert(key, xs[0], StableSort(key, xs[1..]))
  }

  ghost predicate SortedBy<T>(key: T -> int, xs: seq<T>) {
    forall i, j :: 0 <= i < j < |xs| ==> key(xs[i]) <= key(xs[j])
  }

  /** The elements that satisfy `p`, in order. */
  function Select<T>(p: T -> bool, xs: seq<T>): seq<T> {
    if xs == [] then [] else (if p(xs[0]) then [xs[0]] else []) + Select(p, xs[1..])
  }

  function WithKey<T>(key: T -> int, k: int): T -> bool {
    (x: T) => key(x) == k
  }

  lemma {:induction false} InsertKeepsSorted<T>(key: T -> int, x: T, xs: seq<T>)
    requires SortedBy(key, xs)
    ensures SortedBy(key, Insert(key, x, xs))
    ensures forall y :: y in Insert(key, x, xs) ==> y == x || y in xs
  {
    if xs != [] && key(x) > key(xs[0]) {
      InsertKeepsSorted(key, x, xs[1..]);
      var tail := Insert(key, x, xs[1..]);
      forall j | 0 <= j < |tail| ensures key(xs[0]) <= key(tail[j]) {
        assert tail[j] in tail;
      }
    }
  }

  lemma SelectCons<T>(p: T -> bool, x: T, xs: seq<T>)
    ensures Select(p, [x] + xs) == if p(x) then [x] + Select(p, xs) else Select(p, xs)
  {
    assert ([x] + xs)[1..] == xs;
  }

  /** Insertion only passes smaller keys, so it keeps the order within a key. */
  lemma {:induction false} InsertSelects<T>(key: T -> int, p: T -> bool, x: T, xs: seq<T>)
    requires forall y :: y in xs && p(x) && p(y) ==> key(x) == key(y)
    ensures Select(p, Insert(key, x, xs)) == if p(x) then [x] + Select(p, xs) else Select(p, xs)
  {
    if xs == [] || key(x) <= key(xs[0]) {
      SelectCons(p, x, xs);
    } else {
      InsertSelects(key, p, x, xs[1..]);
      SelectCons(p, xs[0], Insert(key, x, xs[1..]));
      assert xs == [xs[0]] + xs[1..];
      SelectCons(p, xs[0], xs[1..]);
      assert xs[0] in xs;
    }
  }

  /** The sort is sorted and, for every key, keeps the order of its elements. */
  lemma {:induction false} StableSortIsStable<T>(key: T -> int, xs: seq<T>, k: int)
    ensures SortedBy(key, StableSort(key, xs))
    ensures Select(WithKey(key, k), StableSort(key, xs)) == Select(WithKey(key, k), xs)
  {
    if xs != [] {
      StableSortIsStable(key, xs[1..], k);
      InsertKeepsSorted(key, xs[0], StableSort(key, xs[1..]));
      InsertSelects(key, WithKey(key, k), xs[0], StableSort(key, xs[1..]));
    }
  }

  lemma {:induction false} InsertAdds<T>(key: T -> int, x: T, xs: seq<T>)
    ensures multiset(Insert(key, x, xs)) == multiset{x} + multiset(xs)
  {
    if xs != [] && key(x) > key(xs[0]) {
      InsertAdds(key, x, xs[1..]);
      assert xs == [xs[0]] + xs[1..];
    }
  }

  lemma {:induction false} StableSortPermutes<T>(key: T -> int, xs: seq<T>)
    ensures multiset(StableSort(key, xs)) == multiset(xs)
  {
    if xs != [] {
      StableSortPermutes(key, xs[1..]);
      InsertAdds(key, xs[0], StableSort(key, xs[1..]));
      assert xs == [xs[0]] + xs[1..];
    }
  }

  lemma {:induction false} SelectNonEmpty<T>(p: T -> bool, xs: seq<T>, i: nat)
    requires i < |xs| && p(xs[i])
    ensures Select(p, xs) != []
  {
    if i > 0 {
      SelectNonEmpty(p, xs[1..], i - 1);
    }
  }

  lemma {:induction false} SelectedAre<T>(p: T -> bool, xs: seq<T>)
    ensures forall x :: x in Select(p, xs) ==> p(x) && x in xs
  {
    if xs != [] {
      SelectedAre(p, xs[1..]);
    }
  }

  lemma {:induction false} SelectJoin<T>(q: T -> bool, xs: seq<T>, ys: seq<T>)
    ensures Select(q, xs + ys) == Select(q, xs) + Select(q, ys)
  {
    if xs == [] {
      assert xs + ys == ys;
    } else {
      SelectJoin(q, xs[1..], ys);
      assert (xs + ys)[1..] == xs[1..] + ys;
      Assoc(if q(xs[0]) then [xs[0]] else [], Select(q, xs[1..]), Select(q, ys));
    }
  }

  lemma {:induction false} SelectWhole<T>(q: T -> bool, xs: seq<T>)
    requires forall x :: x in xs ==> q(x)
    ensures Select(q, xs) == xs
  {
    if xs != [] {
      SelectWhole(q, xs[1..]);
    }
  }

  lemma {:induction false} SelectNone<T>(q: T -> bool, xs: seq<T>)
    requires forall x :: x in xs ==> !q(x)
    ensures Select(q, xs) == []
  {
    if xs != [] {
      SelectNone(q, xs[1..]);
    }
  }

  lemma SelectOne<T>(q: T -> bool, x: T)
    ensures Select(q, [x]) == if q(x) then [x] else []
  {
  }

  ghost predicate SameSelections<T>(key: T -> int, xs: seq<T>, ys: seq<T>) {
    forall k :: Select(WithKey(key, k), xs) == Select(WithKey(key, k), ys)
  }

  lemma SameHead<T>(key: T -> int, xs: seq<T>, ys: seq<T>)
    requires SortedBy(key, xs) && SortedBy(key, ys) && SameSelections(key, xs, ys) && xs != [] && ys != []
    ensures xs[0] == ys[0]
  {
    var p, q := WithKey(key, key(xs[0])), WithKey(key, key(ys[0]));
    SelectNonEmpty(p, xs, 0);
    SelectNonEmpty(q, ys, 0);
    SelectedAre(p, ys);
    SelectedAre(q, xs);
    assert Select(p, xs) == Select(p, ys) && Select(q, xs) == Select(q, ys);
    assert Select(p, ys)[0] in Select(p, ys) && Select(q, xs)[0] in Select(q, xs);
    assert key(xs[0]) == key(ys[0]);
    assert Select(p, xs)[0] == xs[0] && Select(p, ys)[0] == ys[0];
  }

  /** Only one sequence is sorted and keeps the order within every key. */
  lemma {:induction false} SortedIsUnique<T>(key: T -> int, xs: seq<T>, ys: seq<T>)
    requires SortedBy(key, xs) && SortedBy(key, ys) && SameSelections(key, xs, ys)
    ensures xs == ys
  {
    assert xs != [] ==> Select(WithKey(key, key(xs[0])), xs) != [];
    assert ys != [] ==> Select(WithKey(key, key(ys[0])), ys) != [];
    if xs != [] && ys != [] {
      SameHead(key, xs, ys);
      forall k ensures Select(WithKey(key, k), xs[1..]) == Select(WithKey(key, k), ys[1..]) {
        var p := WithKey(key, k);
        var head := if p(xs[0]) then [xs[0]] else [];
        assert Select(p, xs) == Select(p, ys);
        assert Select(p, xs)[|head|..] == Select(p, xs[1..]);
        assert Select(p, ys)[|head|..] == Select(p, ys[1..]);
      }
      SortedIsUnique(key, xs[1..], ys[1..]);
    }
  }

  function Keys<T, K>(key: T -> K, xs: seq<T>): (ks: seq<K>)
    ensures |ks| == |xs|
  {
    seq(|xs|, i requires 0 <= i < |xs| => key(xs[i]))
  }

  lemma KeysJoin<T, K>(key: T -> K, xs: seq<T>, ys: seq<T>)
    ensures Keys(key, xs + ys) == Keys(key, xs) + Keys(key, ys)
  {
  }

  lemma KeysCons<T, K>(key: T -> K, x: T, xs: seq<T>)
    ensures multiset(Keys(key, [x] + xs)) == multiset{key(x)} + multiset(Keys(key, xs))
  {
    KeysJoin(key, [x], xs);
    assert Keys(key, [x]) == [key(x)];
  }

  lemma SwapFront<K>(a: multiset<K>, b: multiset<K>, c: multiset<K>)
    ensures a + (b + c) == b + (a + c)
  {
  }

  lemma {:induction false} KeysOfInsert<T, K>(order: T -> int, key: T -> K, x: T, xs: seq<T>)
    ensures multiset(Keys(key, Insert(order, x, xs))) == multiset{key(x)} + multiset(Keys(key, xs))
  {
    if xs == [] || order(x) <= order(xs[0]) {
      KeysCons(key, x, xs);
    } else {
      KeysOfInsert(order, key, x, xs[1..]);
      KeysCons(key, xs[0], Insert(order, x, xs[1..]));
      KeysCons(key, xs[0], xs[1..]);
      assert xs == [xs[0]] + xs[1..];
      SwapFront(multiset{key(xs[0])}, multiset{key(x)}, multiset(Keys(key, xs[1..])));
    }
  }

  /** Sorting keeps the elements, as seen through any key. */
  lemma {:induction false} KeysOfSort<T, K>(order: T -> int, key: T -> K, xs: seq<T>)
    ensures multiset(Keys(key, StableSort(order, xs))) == multiset(Keys(key, xs))
  {
    if xs != [] {
      KeysOfSort(order, key, xs[1..]);
      KeysOfInsert(order, key, xs[0], StableSort(order, xs[1..]));
      KeysCons(key, xs[0], xs[1..]);
      assert xs == [xs[0]] + xs[1..];
    }
  }

  lemma SortKeepsElements<T>(order: T -> int, xs: seq<T>, x: T)
    ensures x in StableSort(order, xs) <==> x in xs
  {
    StableSortPermutes(order, xs);
    assert x in multiset(StableSort(order, xs)) <==> x in multiset(xs);
  }
}
