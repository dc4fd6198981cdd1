/** The stable sorts of the source, by a natural key: a tie keeps the order it arrived in. */
module Sorting {

  /** Put `x` in front of the first element whose key is not below its own. */
  function Insert<T>(key: T -> nat, x: T, xs: seq<T>): seq<T> {
    if xs == [] || key(x) <= key(xs[0]) then [x] + xs else [xs[0]] + Insert(key, x, xs[1..])
  }

  function StableSort<T>(key: T -> nat, xs: seq<T>): seq<T> {
    if xs == [] then [] else Insert(key, xs[0], StableSort(key, xs[1..]))
  }

  ghost predicate SortedBy<T>(key: T -> nat, xs: seq<T>) {
    forall i, j :: 0 <= i < j < |xs| ==> key(xs[i]) <= key(xs[j])
  }

  /** The elements at one key, in order. */
  ghost function At<T>(key: T -> nat, xs: seq<T>, k: nat): seq<T> {
    if xs == [] then [] else (if key(xs[0]) == k then [xs[0]] else []) + At(key, xs[1..], k)
  }

  lemma {:induction false} InsertKeepsElements<T>(key: T -> nat, x: T, xs: seq<T>)
    ensures multiset(Insert(key, x, xs)) == multiset{x} + multiset(xs)
  {
    if xs != [] && key(x) > key(xs[0]) {
      InsertKeepsElements(key, x, xs[1..]);
      assert xs == [xs[0]] + xs[1..];
    }
  }

  lemma {:induction false} InsertSorts<T>(key: T -> nat, x: T, xs: seq<T>)
    requires SortedBy(key, xs)
    ensures SortedBy(key, Insert(key, x, xs))
  {
    if xs == [] || key(x) <= key(xs[0]) {
      assert forall j :: 0 <= j < |xs| ==> key(x) <= key(xs[j]);
    } else {
      var rest := Insert(key, x, xs[1..]);
      InsertSorts(key, x, xs[1..]);
      InsertKeepsElements(key, x, xs[1..]);
      forall j | 0 <= j < |rest| ensures key(xs[0]) <= key(rest[j]) {
        assert rest[j] in multiset(rest);
        assert rest[j] == x || rest[j] in xs[1..];
      }
    }
  }

  lemma {:induction false} InsertKeepsOrder<T>(key: T -> nat, x: T, xs: seq<T>, k: nat)
    ensures At(key, Insert(key, x, xs), k) == At(key, [x] + xs, k)
  {
    assert ([x] + xs)[1..] == xs;
    if xs != [] && key(x) > key(xs[0]) {
      var rest := Insert(key, x, xs[1..]);
      InsertKeepsOrder(key, x, xs[1..], k);
      assert ([xs[0]] + rest)[1..] == rest && ([x] + xs[1..])[1..] == xs[1..];
    }
  }

  /** What a stable sort is: sorted, the same elements, and those at one key in the order they came. */
  lemma {:induction false} StableSorts<T>(key: T -> nat, xs: seq<T>)
    ensures SortedBy(key, StableSort(key, xs))
    ensures multiset(StableSort(key, xs)) == multiset(xs)
    ensures forall k :: At(key, StableSort(key, xs), k) == At(key, xs, k)
  {
    if xs != [] {
      var rest := StableSort(key, xs[1..]);
      StableSorts(key, xs[1..]);
      InsertSorts(key, xs[0], rest);
      InsertKeepsElements(key, xs[0], rest);
      assert xs == [xs[0]] + xs[1..] && ([xs[0]] + rest)[1..] == rest;
      forall k ensures At(key, StableSort(key, xs), k) == At(key, xs, k) {
        InsertKeepsOrder(key, xs[0], rest, k);
      }
    }
  }

  /** Elements all at or past a key sort behind one at it, wherever that one is put. */
  lemma {:induction false} InsertInFront<T>(key: T -> nat, x: T, xs: seq<T>, ys: seq<T>)
    requires ys == [] || key(x) <= key(ys[0])
    ensures Insert(key, x, xs + ys) == Insert(key, x, xs) + ys
  {
    if xs == [] {
      assert xs + ys == ys;
    } else if key(x) > key(xs[0]) {
      assert (xs + ys)[1..] == xs[1..] + ys;
      InsertInFront(key, x, xs[1..], ys);
    } else {
      assert [x] + (xs + ys) == [x] + xs + ys;
    }
  }

  ghost predicate Below<T>(key: T -> nat, xs: seq<T>, ys: seq<T>) {
    forall i, j :: 0 <= i < |xs| && 0 <= j < |ys| ==> key(xs[i]) <= key(ys[j])
  }

  /** A sort of two runs is the two sorts joined exactly where nothing of the first is past anything of the second. */
  lemma {:induction false} SortSplits<T>(key: T -> nat, xs: seq<T>, ys: seq<T>)
    requires Below(key, xs, ys)
    ensures StableSort(key, xs + ys) == StableSort(key, xs) + StableSort(key, ys)
  {
    if xs == [] {
      assert xs + ys == ys;
    } else {
      assert (xs + ys)[1..] == xs[1..] + ys;
      SortSplits(key, xs[1..], ys);
      StableSorts(key, ys);
      FirstIsAtOrPast(key, xs[0], ys, StableSort(key, ys));
      InsertInFront(key, xs[0], StableSort(key, xs[1..]), StableSort(key, ys));
    }
  }

  lemma FirstIsAtOrPast<T>(key: T -> nat, x: T, ys: seq<T>, sorted: seq<T>)
    requires multiset(sorted) == multiset(ys) && forall j :: 0 <= j < |ys| ==> key(x) <= key(ys[j])
    ensures sorted == [] || key(x) <= key(sorted[0])
  {
    if sorted != [] {
      assert sorted[0] in multiset(ys);
    }
  }

  /** A sorted sequence cut in two has the elements of the one part at or below those of the other. */
  lemma CutIsBelow<T>(key: T -> nat, x: seq<T>, y: seq<T>, xs: seq<T>, ys: seq<T>)
    requires SortedBy(key, x + y) && multiset(x) == multiset(xs) && multiset(y) == multiset(ys)
    ensures Below(key, xs, ys)
  {
    forall i, j | 0 <= i < |xs| && 0 <= j < |ys| ensures key(xs[i]) <= key(ys[j]) {
      assert xs[i] in multiset(x) && ys[j] in multiset(y);
      var a :| 0 <= a < |x| && x[a] == xs[i];
      var b :| 0 <= b < |y| && y[b] == ys[j];
      assert (x + y)[a] == xs[i] && (x + y)[|x| + b] == ys[j];
    }
  }
}
