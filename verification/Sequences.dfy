/** Facts about sequences and sets that several modules share. */
module Sequences {
  function Flatten<T>(parts: seq<seq<T>>): seq<T> {
    if parts == [] then [] else parts[0] + Flatten(parts[1..])
  }

  lemma FlattenConcat<T>(a: seq<seq<T>>, b: seq<seq<T>>)
    ensures Flatten(a + b) == Flatten(a) + Flatten(b)
  {
    if a == [] {
      assert a + b == b;
    } else {
      assert (a + b)[1..] == a[1..] + b;
      FlattenConcat(a[1..], b);
    }
  }

  lemma FlattenCons<T>(head: seq<T>, tail: seq<seq<T>>)
    ensures Flatten([head] + tail) == head + Flatten(tail)
  {
    assert ([head] + tail)[1..] == tail;
  }

  lemma FlattenLast<T>(parts: seq<seq<T>>, last: seq<T>)
    ensures Flatten(parts + [last]) == Flatten(parts) + last
  {
    FlattenConcat(parts, [last]);
    FlattenCons(last, []);
    assert [last] + [] == [last];
  }

  lemma HasMember<T>(s: seq<T>)
    ensures s != [] ==> exists x :: x in s
  {
    if s != [] { assert s[0] in s; }
  }

  lemma SameMembers<T>(a: seq<T>, b: seq<T>)
    requires multiset(a) == multiset(b)
    ensures forall x :: x in a <==> x in b
  {
    assert forall x :: x in a <==> x in multiset(a);
  }

  lemma InsertedMembers<T>(inserted: seq<T>, value: T, s: seq<T>)
    requires multiset(inserted) == multiset{value} + multiset(s)
    ensures forall x :: x in inserted <==> x == value || x in s
  {
    SameMembers(inserted, [value] + s);
  }

  lemma SubsetSize<T>(a: set<T>, b: set<T>)
    requires a <= b
    ensures |a| <= |b|
    ensures |a| == |b| <==> a == b
  {
    assert b == a + (b - a) && |b| == |a| + |b - a|;
  }

  function Min(a: nat, b: nat): nat {
    if a < b then a else b
  }

  /** `values[:k]` */
  function Take<T>(values: seq<T>, k: nat): seq<T> {
    values[..Min(k, |values|)]
  }

  /** The distinct values, each at its first place. */
  function Unique<T(==)>(values: seq<T>): seq<T> {
    if values == [] then []
    else
      var before, last := Unique(values[..|values| - 1]), values[|values| - 1];
      if last in before then before else before + [last]
  }

  ghost predicate Distinct<T>(values: seq<T>) {
    forall i, j | 0 <= i < j < |values| :: values[i] != values[j]
  }

  lemma {:induction false} UniqueIsDistinct<T>(values: seq<T>)
    ensures Distinct(Unique(values)) && forall v :: v in Unique(values) <==> v in values
  {
    if values != [] {
      var n := |values| - 1;
      UniqueIsDistinct(values[..n]);
      assert values == values[..n] + [values[n]];
    }
  }

  /** The distinct items of a prefix are a prefix of its distinct items, and no longer. */
  lemma {:induction false} UniquePrefix<T>(values: seq<T>, k: nat)
    requires k <= |values|
    ensures Unique(values[..k]) <= Unique(values) && |Unique(values[..k])| <= k
    decreases |values|
  {
    if values == [] {
    } else if k == |values| {
      assert values[..k] == values;
      UniquePrefix(values[..k - 1], k - 1);
      assert values[..k - 1][..k - 1] == values[..k - 1];
    } else {
      var n := |values| - 1;
      UniquePrefix(values[..n], k);
      assert values[..n][..k] == values[..k];
    }
  }

  function SetOf<T(==)>(values: seq<T>): set<T> {
    set v | v in values
  }

  lemma {:induction false} DistinctSize<T>(values: seq<T>)
    requires Distinct(values)
    ensures |SetOf(values)| == |values|
  {
    if values != [] {
      var n := |values| - 1;
      DistinctSize(values[..n]);
      assert values == values[..n] + [values[n]];
      assert SetOf(values) == SetOf(values[..n]) + {values[n]} && values[n] !in SetOf(values[..n]);
    }
  }
}
