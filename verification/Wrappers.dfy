/** Option, shared by every module: the source's `None`-able values. */
module Wrappers {
  datatype Option<+T> = None | Some(value: T)
}

/** Listing a set in an order the model leaves open: the rows of a query, the keys of a dictionary. */
module Collections {
  /** `list` holds each element of `elements` exactly once. */
  ghost predicate Enumerates<T(!new)>(list: seq<T>, elements: set<T>) {
    && (forall x :: x in list <==> x in elements)
    && (forall i, j :: 0 <= i < j < |list| ==> list[i] != list[j])
  }

  method Enumerate<T(!new)>(elements: set<T>) returns (list: seq<T>)
    ensures Enumerates(list, elements)
  {
    list := [];
    var rest := elements;
    while rest != {}
      invariant rest <= elements
      invariant Enumerates(list, elements - rest)
      decreases rest
    {
      var x :| x in rest;
      list, rest := list + [x], rest - {x};
    }
  }

  lemma {:induction false} EnumeratesMore<T(!new)>(list: seq<T>, elements: set<T>, x: T)
    requires Enumerates(list, elements) && x !in elements
    ensures Enumerates(list + [x], elements + {x})
  {
    assert x !in list;
  }

  lemma {:induction false} EmptyIffNothing<T(!new)>(list: seq<T>, elements: set<T>)
    requires Enumerates(list, elements)
    ensures list == [] <==> elements == {}
  {
    if list != [] {
      assert list[0] in list;
    }
    if elements != {} {
      var x :| x in elements;
    }
  }

  /** `at` lists, in ascending order, the chosen positions below n. */
  ghost predicate Selects(at: seq<nat>, n: nat, chosen: set<int>) {
    && (forall k :: 0 <= k < |at| ==> at[k] < n)
    && (forall j, k :: 0 <= j < k < |at| ==> at[j] < at[k])
    && (forall i :: i in at <==> i in chosen)
  }

  lemma {:induction false} SelectsMore(at: seq<nat>, n: nat, chosen: set<int>, more: set<int>)
    requires Selects(at, n, chosen) && forall i :: i != n ==> (i in more <==> i in chosen)
    ensures n !in at && Selects(if n in more then at + [n] else at, n + 1, more)
  {
  }

  /** `list` holds, in order, what `s` holds at these positions. */
  ghost predicate PickedAt<T(!new)>(list: seq<T>, s: seq<T>, at: seq<nat>) {
    |list| == |at| && forall i :: 0 <= i < |at| ==> at[i] < |s| && list[i] == s[at[i]]
  }

  lemma {:induction false} PickedMore<T(!new)>(list: seq<T>, s: seq<T>, n: nat, at: seq<nat>)
    requires n < |s| && PickedAt(list, s[..n], at)
    ensures PickedAt(list, s, at) && PickedAt(list + [s[n]], s, at + [n])
  {
  }

  lemma {:induction false} PickNext<T(!new)>(list: seq<T>, s: seq<T>, n: nat, before: seq<nat>, chosen: set<int>, more: set<int>) returns (at: seq<nat>)
    requires n < |s| && Selects(before, n, chosen) && PickedAt(list, s[..n], before)
    requires forall i :: i != n ==> (i in more <==> i in chosen)
    ensures Selects(at, n + 1, more)
    ensures PickedAt(if n in more then list + [s[n]] else list, s, at)
  {
    SelectsMore(before, n, chosen, more);
    PickedMore(list, s, n, before);
    if n in more {
      at := before + [n];
    } else {
      at := before;
    }
  }
}
