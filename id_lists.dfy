/**
 * The two list idioms the plan updates are built from, over any element type
 * that carries an integer id: `xs.map(x => x.id === id ? f(x) : x)` and
 * `xs.filter(x => x.id !== id)`. Both produce a new list and leave the old one
 * as it was.
 */
module IdLists {

  /** No two elements share an id. */
  predicate KeysDistinct<T>(xs: seq<T>, key: T -> int) {
    forall i, j :: 0 <= i < j < |xs| ==> key(xs[i]) != key(xs[j])
  }

  /** Some element has the id. */
  predicate HasKey<T>(xs: seq<T>, key: T -> int, id: int) {
    exists i :: 0 <= i < |xs| && key(xs[i]) == id
  }

  /** Replaces every element whose id is `id` by `f` of it, in place in the
      order; all other elements stay as they were. */
  function MapWhere<T>(xs: seq<T>, key: T -> int, id: int, f: T -> T): (r: seq<T>)
    ensures |r| == |xs|
    ensures forall i :: 0 <= i < |xs| && key(xs[i]) != id ==> r[i] == xs[i]
    ensures forall i :: 0 <= i < |xs| && key(xs[i]) == id ==> r[i] == f(xs[i])
  {
    if |xs| == 0 then []
    else [if key(xs[0]) == id then f(xs[0]) else xs[0]] + MapWhere(xs[1..], key, id, f)
  }

  /** The recursion behind FilterOut: walks the list from the front and
      keeps each element that lacks the id. */
  function KeepOthers<T>(xs: seq<T>, key: T -> int, id: int): seq<T> {
    if |xs| == 0 then []
    else (if key(xs[0]) == id then [] else [xs[0]]) + KeepOthers(xs[1..], key, id)
  }

  /** KeepOthers never lengthens the list. */
  lemma {:induction false} KeepOthersLength<T>(xs: seq<T>, key: T -> int, id: int)
    ensures |KeepOthers(xs, key, id)| <= |xs|
  {
    if |xs| > 0 {
      KeepOthersLength(xs[1..], key, id);
    }
  }

  /** KeepOthers keeps exactly the elements without the id. */
  lemma {:induction false} KeepOthersMembers<T(!new)>(xs: seq<T>, key: T -> int, id: int)
    ensures forall x :: x in KeepOthers(xs, key, id) <==> x in xs && key(x) != id
  {
    if |xs| > 0 {
      KeepOthersMembers(xs[1..], key, id);
      assert xs == [xs[0]] + xs[1..];
    }
  }

  /** KeepOthers keeps each element without the id as often as it occurs. */
  lemma {:induction false} KeepOthersCounts<T(!new)>(xs: seq<T>, key: T -> int, id: int)
    ensures forall x :: multiset(KeepOthers(xs, key, id))[x] == if key(x) == id then 0 else multiset(xs)[x]
  {
    if |xs| > 0 {
      KeepOthersCounts(xs[1..], key, id);
      assert xs == [xs[0]] + xs[1..];
    }
  }

  /** Drops every element whose id is `id`; the others keep their number of
      occurrences, and their order (FilterOutAppend). */
  function FilterOut<T(==,!new)>(xs: seq<T>, key: T -> int, id: int): (r: seq<T>)
    ensures |r| <= |xs|
    ensures forall x :: x in r <==> x in xs && key(x) != id
    ensures forall x :: multiset(r)[x] == if key(x) == id then 0 else multiset(xs)[x]
  {
    KeepOthersLength(xs, key, id);
    KeepOthersMembers(xs, key, id);
    KeepOthersCounts(xs, key, id);
    KeepOthers(xs, key, id)
  }

  /** An id that no element carries leaves the list unchanged under both
      operations. */
  lemma {:induction false} AbsentKeyChangesNothing<T(!new)>(xs: seq<T>, key: T -> int, id: int, f: T -> T)
    requires !HasKey(xs, key, id)
    ensures MapWhere(xs, key, id, f) == xs
    ensures FilterOut(xs, key, id) == xs
  {
    AbsentKeyMapsNothing(xs, key, id, f);
    AbsentKeyFiltersNothing(xs, key, id);
  }

  lemma {:induction false} AbsentKeyMapsNothing<T>(xs: seq<T>, key: T -> int, id: int, f: T -> T)
    requires !HasKey(xs, key, id)
    ensures MapWhere(xs, key, id, f) == xs
  {
    if |xs| > 0 {
      AbsentFromTail(xs, key, id);
      AbsentKeyMapsNothing(xs[1..], key, id, f);
      assert xs == [xs[0]] + xs[1..];
    }
  }

  lemma {:induction false} AbsentKeyFiltersNothing<T(!new)>(xs: seq<T>, key: T -> int, id: int)
    requires !HasKey(xs, key, id)
    ensures FilterOut(xs, key, id) == xs
  {
    AbsentKeyKeepsAll(xs, key, id);
  }

  lemma {:induction false} AbsentKeyKeepsAll<T>(xs: seq<T>, key: T -> int, id: int)
    requires !HasKey(xs, key, id)
    ensures KeepOthers(xs, key, id) == xs
  {
    if |xs| > 0 {
      AbsentFromTail(xs, key, id);
      AbsentKeyKeepsAll(xs[1..], key, id);
      assert xs == [xs[0]] + xs[1..];
    }
  }

  /** An id missing from a list is missing from its head and its tail. */
  lemma {:induction false} AbsentFromTail<T>(xs: seq<T>, key: T -> int, id: int)
    requires |xs| > 0 && !HasKey(xs, key, id)
    ensures key(xs[0]) != id && !HasKey(xs[1..], key, id)
  {
    forall i | 0 <= i < |xs[1..]| ensures key(xs[1..][i]) != id {
      assert xs[1..][i] == xs[i + 1];
    }
  }

  /** Filtering twice by the same id is filtering once. */
  lemma {:induction false} FilterOutIdempotent<T(!new)>(xs: seq<T>, key: T -> int, id: int)
    ensures FilterOut(FilterOut(xs, key, id), key, id) == FilterOut(xs, key, id)
  {
    var r := FilterOut(xs, key, id);
    assert !HasKey(r, key, id) by {
      forall i | 0 <= i < |r| ensures key(r[i]) != id {
        assert r[i] in r;
      }
    }
    AbsentKeyChangesNothing(r, key, id, x => x);
  }

  /** KeepOthers walks the list front to back. */
  lemma {:induction false} KeepOthersCons<T>(x: T, xs: seq<T>, key: T -> int, id: int)
    ensures KeepOthers([x] + xs, key, id) == (if key(x) == id then [] else [x]) + KeepOthers(xs, key, id)
  {
    assert ([x] + xs)[1..] == xs;
  }

  lemma {:induction false} KeepOthersAppend<T>(xs: seq<T>, ys: seq<T>, key: T -> int, id: int)
    ensures KeepOthers(xs + ys, key, id) == KeepOthers(xs, key, id) + KeepOthers(ys, key, id)
    decreases |xs|
  {
    if |xs| == 0 {
      assert xs + ys == ys;
    } else {
      var head := if key(xs[0]) == id then [] else [xs[0]];
      assert (xs + ys)[1..] == xs[1..] + ys;
      KeepOthersAppend(xs[1..], ys, key, id);
      assert KeepOthers(xs + ys, key, id) == head + KeepOthers(xs[1..] + ys, key, id);
    }
  }

  /** Filtering one element: it stays exactly when it lacks the id. */
  lemma {:induction false} FilterOutOne<T(!new)>(x: T, key: T -> int, id: int)
    ensures FilterOut([x], key, id) == if key(x) == id then [] else [x]
  {
    KeepOthersCons(x, [], key, id);
    assert [x] + [] == [x];
  }

  /** Filtering distributes over concatenation: the kept elements of `xs`
      come first, those of `ys` after them. With FilterOutOne this fixes the
      result completely: the kept elements stay in their original order. */
  lemma {:induction false} FilterOutAppend<T(!new)>(xs: seq<T>, ys: seq<T>, key: T -> int, id: int)
    ensures FilterOut(xs + ys, key, id) == FilterOut(xs, key, id) + FilterOut(ys, key, id)
  {
    KeepOthersAppend(xs, ys, key, id);
  }

  /** Dropping the one element with the id from between two runs without it
      closes the gap: the runs stay as they were, in order. */
  lemma {:induction false} FilterOutSingle<T(!new)>(before: seq<T>, x: T, after: seq<T>, key: T -> int)
    requires !HasKey(before, key, key(x)) && !HasKey(after, key, key(x))
    ensures FilterOut(before + [x] + after, key, key(x)) == before + after
  {
    var id := key(x);
    KeepOthersAppend(before + [x], after, key, id);
    KeepOthersAppend(before, [x], key, id);
    KeepOthersCons(x, [], key, id);
    assert [x] + [] == [x];
    AbsentKeyKeepsAll(before, key, id);
    AbsentKeyKeepsAll(after, key, id);
    assert KeepOthers(before + [x] + after, key, id) == before + after;
  }

  /** Dropping elements cannot make two ids equal. */
  lemma {:induction false} FilterOutKeepsDistinct<T(!new)>(xs: seq<T>, key: T -> int, id: int)
    requires KeysDistinct(xs, key)
    ensures KeysDistinct(FilterOut(xs, key, id), key)
  {
    if |xs| > 0 {
      var tail := xs[1..];
      var rest := FilterOut(tail, key, id);
      DistinctTail(xs, key);
      FilterOutKeepsDistinct(tail, key, id);
      if key(xs[0]) != id {
        forall j | 0 <= j < |rest| ensures key(rest[j]) != key(xs[0]) {
          assert rest[j] in rest;
        }
        DistinctCons(xs[0], rest, key);
      }
    }
  }

  /** The tail of a list with distinct ids has distinct ids, none of them the
      head's. */
  lemma {:induction false} DistinctTail<T>(xs: seq<T>, key: T -> int)
    requires |xs| > 0 && KeysDistinct(xs, key)
    ensures KeysDistinct(xs[1..], key)
    ensures forall y :: y in xs[1..] ==> key(y) != key(xs[0])
  {
    forall i, j | 0 <= i < j < |xs[1..]| ensures key(xs[1..][i]) != key(xs[1..][j]) {
      assert xs[1..][i] == xs[i + 1] && xs[1..][j] == xs[j + 1];
    }
    forall y | y in xs[1..] ensures key(y) != key(xs[0]) {
      var k :| 0 <= k < |xs[1..]| && xs[1..][k] == y;
      assert xs[k + 1] == y;
    }
  }

  /** Putting an element in front of a list with distinct ids, none of them
      its own, keeps the ids distinct. */
  lemma {:induction false} DistinctCons<T>(x: T, rest: seq<T>, key: T -> int)
    requires KeysDistinct(rest, key)
    requires forall j :: 0 <= j < |rest| ==> key(rest[j]) != key(x)
    ensures KeysDistinct([x] + rest, key)
  {
    var r := [x] + rest;
    forall i, j | 0 <= i < j < |r| ensures key(r[i]) != key(r[j]) {
      assert r[j] == rest[j - 1];
      if i > 0 {
        assert r[i] == rest[i - 1];
      }
    }
  }
}
