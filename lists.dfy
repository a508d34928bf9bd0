/**
 * The few Python list operations the core relies on, written as functions on
 * sequences: `list.index`, `list.remove`, and the "no duplicates" property of
 * the key lists of a dictionary.
 */
module Lists {

  /** Position of the first occurrence of `x` in `xs`, or `|xs|` when absent (`list.index`). */
  function IndexOf<T(==)>(xs: seq<T>, x: T): (i: nat)
    ensures i <= |xs|
    ensures i < |xs| <==> x in xs
    ensures i < |xs| ==> xs[i] == x
    ensures forall k :: 0 <= k < i ==> xs[k] != x
  {
    if xs == [] then 0
    else if xs[0] == x then 0
    else 1 + IndexOf(xs[1..], x)
  }

  /** `list.remove(x)`: drops the first occurrence of `x` (callers check `x in xs`). */
  function RemoveFirst<T(==)>(xs: seq<T>, x: T): (r: seq<T>)
    ensures |r| == if x in xs then |xs| - 1 else |xs|
  {
    if xs == [] then []
    else if xs[0] == x then xs[1..]
    else [xs[0]] + RemoveFirst(xs[1..], x)
  }

  /** `RemoveFirst` cuts out exactly the element at `IndexOf(xs, x)`. */
  lemma {:induction false} RemoveFirstCutsFirst<T>(xs: seq<T>, x: T)
    ensures x in xs ==> RemoveFirst(xs, x) == xs[..IndexOf(xs, x)] + xs[IndexOf(xs, x) + 1..]
    ensures x !in xs ==> RemoveFirst(xs, x) == xs
  {
    if xs != [] && xs[0] != x {
      assert xs == [xs[0]] + xs[1..];
      RemoveFirstCutsFirst(xs[1..], x);
      if x in xs {
        var i := IndexOf(xs[1..], x);
        assert IndexOf(xs, x) == i + 1;
        assert xs[..i + 1] == [xs[0]] + xs[1..][..i];
        assert xs[i + 2..] == xs[1..][i + 1..];
      }
    }
  }

  /** `list.remove(x)` takes out one copy of `x`, and only that: the other elements keep their multiplicities. */
  lemma {:induction false} RemoveFirstOneCopy<T>(xs: seq<T>, x: T)
    ensures multiset(RemoveFirst(xs, x)) == multiset(xs) - multiset{x}
  {
    if xs != [] {
      assert xs == [xs[0]] + xs[1..];
      if xs[0] != x {
        RemoveFirstOneCopy(xs[1..], x);
      }
    }
  }

  lemma TakeOneMore<T>(xs: seq<T>, k: nat)
    requires k < |xs|
    ensures xs[..k + 1] == xs[..k] + [xs[k]]
  {
  }

  ghost predicate Distinct<T>(xs: seq<T>) {
    forall i, j :: 0 <= i < j < |xs| ==> xs[i] != xs[j]
  }

  /** `order` lists the keys of a dictionary whose key set is `keys`, each once. */
  ghost predicate KeysInOrder<T>(order: seq<T>, keys: set<T>) {
    Distinct(order) && (forall k :: k in order ==> k in keys) && (forall k :: k in keys ==> k in order)
  }

  /** The head of a key list is a key; so the key list of an empty dictionary is empty. */
  lemma HeadIsKey<T>(order: seq<T>, keys: set<T>)
    requires KeysInOrder(order, keys)
    ensures order != [] ==> order[0] in keys
  {
  }

  lemma {:induction false} RemoveFirstMembers<T>(xs: seq<T>, x: T)
    requires Distinct(xs)
    ensures forall y :: y in RemoveFirst(xs, x) <==> y in xs && y != x
  {
    if xs != [] {
      assert xs == [xs[0]] + xs[1..];
      if xs[0] == x {
        assert forall k :: 1 <= k < |xs| ==> xs[k] != x;
      } else {
        RemoveFirstMembers(xs[1..], x);
      }
    }
  }

  lemma {:induction false} RemoveFirstDistinct<T>(xs: seq<T>, x: T)
    requires Distinct(xs)
    ensures Distinct(RemoveFirst(xs, x))
  {
    if xs != [] && xs[0] != x {
      var tail := RemoveFirst(xs[1..], x);
      RemoveFirstDistinct(xs[1..], x);
      RemoveFirstMembers(xs[1..], x);
      assert xs[0] !in xs[1..] by {
        assert forall k :: 1 <= k < |xs| ==> xs[k] != xs[0];
      }
      var r := [xs[0]] + tail;
      forall a, b | 0 <= a < b < |r| ensures r[a] != r[b] {
        if a == 0 {
          assert r[b] == tail[b - 1];
        } else {
          assert r[a] == tail[a - 1] && r[b] == tail[b - 1];
        }
      }
    }
  }
}
