/**
 * Python's `list.sort(key=...)` and `sorted(..., key=...)`: an ascending,
 * stable sort by a real-valued key. The source uses it to order OCR fragments
 * left to right by their x-coordinate.
 */
module StableSort {

  ghost predicate SortedBy<T>(s: seq<T>, key: T -> real) {
    forall i, j :: 0 <= i < j < |s| ==> key(s[i]) <= key(s[j])
  }

  /** The elements of `s` whose key is `k`, in their order in `s`. */
  function WithKey<T>(s: seq<T>, key: T -> real, k: real): seq<T>
    decreases |s|
  {
    if s == [] then []
    else WithKey(s[..|s| - 1], key, k) + (if key(s[|s| - 1]) == k then [s[|s| - 1]] else [])
  }

  lemma WithKeySnoc<T>(t: seq<T>, x: T, key: T -> real)
    ensures forall k :: WithKey(t + [x], key, k) == WithKey(t, key, k) + (if key(x) == k then [x] else [])
  {
    assert (t + [x])[..|t + [x]| - 1] == t;
  }

  ghost predicate AllAtMost<T>(s: seq<T>, key: T -> real, bound: real) {
    forall i :: 0 <= i < |s| ==> key(s[i]) <= bound
  }

  /**
   * Inserts `x` into the sorted `t` after every element whose key is at most
   * `key(x)`: the step that keeps equal keys in their original order.
   */
  function Insert<T>(t: seq<T>, x: T, key: T -> real): (r: seq<T>)
    requires SortedBy(t, key)
    ensures SortedBy(r, key)
    ensures multiset(r) == multiset(t) + multiset{x}
    ensures forall k :: WithKey(r, key, k) == WithKey(t, key, k) + (if key(x) == k then [x] else [])
    ensures forall b :: AllAtMost(t, key, b) && key(x) <= b ==> AllAtMost(r, key, b)
    decreases |t|
  {
    if t == [] || key(t[|t| - 1]) <= key(x) then
      WithKeySnoc(t, x, key);
      SnocSorted(t, x, key);
      t + [x]
    else
      var init, last := t[..|t| - 1], t[|t| - 1];
      assert t == init + [last];
      var r' := Insert(init, x, key);
      InsertStep(init, last, x, r', key);
      r' + [last]
  }

  /** Appending an element whose key bounds all others keeps a sequence sorted. */
  lemma SnocSorted<T>(t: seq<T>, x: T, key: T -> real)
    requires SortedBy(t, key) && AllAtMost(t, key, key(x))
    ensures SortedBy(t + [x], key)
    ensures forall b :: AllAtMost(t, key, b) && key(x) <= b ==> AllAtMost(t + [x], key, b)
  {
    forall i, j | 0 <= i < j < |t| + 1 ensures key((t + [x])[i]) <= key((t + [x])[j]) {
      if j < |t| {
        assert (t + [x])[i] == t[i] && (t + [x])[j] == t[j];
      } else {
        assert (t + [x])[i] == t[i] && (t + [x])[j] == x;
      }
    }
    forall b | AllAtMost(t, key, b) && key(x) <= b ensures AllAtMost(t + [x], key, b) {
      forall i | 0 <= i < |t| + 1 ensures key((t + [x])[i]) <= b {
        if i < |t| {
          assert (t + [x])[i] == t[i];
        }
      }
    }
  }

  /** The recursive case of `Insert`: `last` goes after the insertion into the shorter prefix. */
  lemma InsertStep<T>(init: seq<T>, last: T, x: T, r': seq<T>, key: T -> real)
    requires SortedBy(init + [last], key) && key(x) < key(last)
    requires SortedBy(r', key) && multiset(r') == multiset(init) + multiset{x}
    requires forall k :: WithKey(r', key, k) == WithKey(init, key, k) + (if key(x) == k then [x] else [])
    requires forall b :: AllAtMost(init, key, b) && key(x) <= b ==> AllAtMost(r', key, b)
    ensures SortedBy(r' + [last], key)
    ensures multiset(r' + [last]) == multiset(init + [last]) + multiset{x}
    ensures forall k :: WithKey(r' + [last], key, k) == WithKey(init + [last], key, k) + (if key(x) == k then [x] else [])
    ensures forall b :: AllAtMost(init + [last], key, b) && key(x) <= b ==> AllAtMost(r' + [last], key, b)
  {
    InsertStepKeys(init, last, x, r', key);
    InsertStepOrder(init, last, x, r', key);
  }

  lemma InsertStepKeys<T>(init: seq<T>, last: T, x: T, r': seq<T>, key: T -> real)
    requires key(x) < key(last)
    requires forall k :: WithKey(r', key, k) == WithKey(init, key, k) + (if key(x) == k then [x] else [])
    ensures forall k :: WithKey(r' + [last], key, k) == WithKey(init + [last], key, k) + (if key(x) == k then [x] else [])
  {
    WithKeySnoc(r', last, key);
    WithKeySnoc(init, last, key);
  }

  lemma InsertStepOrder<T>(init: seq<T>, last: T, x: T, r': seq<T>, key: T -> real)
    requires SortedBy(init + [last], key) && key(x) < key(last)
    requires SortedBy(r', key)
    requires forall b :: AllAtMost(init, key, b) && key(x) <= b ==> AllAtMost(r', key, b)
    ensures SortedBy(r' + [last], key)
    ensures forall b :: AllAtMost(init + [last], key, b) && key(x) <= b ==> AllAtMost(r' + [last], key, b)
  {
    assert AllAtMost(init, key, key(last)) by {
      forall i | 0 <= i < |init| ensures key(init[i]) <= key(last) {
        assert (init + [last])[i] == init[i] && (init + [last])[|init|] == last;
      }
    }
    SnocSorted(r', last, key);
    forall b | AllAtMost(init + [last], key, b) && key(x) <= b ensures AllAtMost(r' + [last], key, b) {
      assert AllAtMost(init, key, b) by {
        forall i | 0 <= i < |init| ensures key(init[i]) <= b {
          assert (init + [last])[i] == init[i];
        }
      }
      assert key(last) <= b by {
        assert (init + [last])[|init|] == last;
      }
    }
  }

  /**
   * Stable ascending sort: the result is sorted by `key`, is a permutation of
   * `s`, and lists the elements of each key in the order `s` has them.
   */
  function SortBy<T>(s: seq<T>, key: T -> real): (r: seq<T>)
    ensures SortedBy(r, key)
    ensures multiset(r) == multiset(s)
    ensures forall k :: WithKey(r, key, k) == WithKey(s, key, k)
    decreases |s|
  {
    if s == [] then []
    else
      var init := s[..|s| - 1];
      assert s == init + [s[|s| - 1]];
      Insert(SortBy(init, key), s[|s| - 1], key)
  }
}
