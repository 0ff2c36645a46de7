/**
  The generic slice helpers of the data package (data/slice.go): membership,
  insertion and removal at an index that may count from the end, pointwise
  equality and the all-blank test. Each computes a fresh sequence from its
  arguments, so each is a function on `seq`.
 */
module Slices {
  import opened Wrappers

  /** Contains: a linear scan for an element equal to x. */
  function Contains<E(==)>(a: seq<E>, x: E): (r: bool)
    ensures r <==> exists i :: 0 <= i < |a| && a[i] == x
  {
    if a == [] then false
    else if a[0] == x then true
    else
      var r := Contains(a[1..], x);
      assert r ==> exists i :: 1 <= i < |a| && a[i] == x by {
        if r { var j :| 0 <= j < |a[1..]| && a[1..][j] == x; assert a[j + 1] == x; }
      }
      r
  }

  /**
    The index rule shared by Insert and Pop: an index at or past the end becomes
    the length, one at or below minus the length becomes 0, and any other
    negative index counts back from the end.
   */
  function Normalise(length: nat, index: int): (k: nat)
    ensures k <= length
    ensures 0 <= index <= length ==> k == index
    ensures index > length ==> k == length
    ensures -(length as int) < index < 0 ==> k == index + length
    ensures index < 0 && index <= -(length as int) ==> k == 0
  {
    if index >= length then length
    else if index <= -(length as int) then 0
    else if index < 0 then index + length
    else index
  }

  /** Insert: the elements of `elems` placed, in order, before position Normalise(|a|, index). */
  function Insert<E>(a: seq<E>, index: int, elems: seq<E>): (r: seq<E>)
    ensures |r| == |a| + |elems|
  {
    var k := Normalise(|a|, index);
    a[..k] + elems + a[k..]
  }

  /** Where everything lands: the prefix stays, `elems` follow at the normalised index, the rest moves up. */
  lemma InsertLayout<E>(a: seq<E>, index: int, elems: seq<E>)
    ensures var r, k := Insert(a, index, elems), Normalise(|a|, index);
      && (forall i :: 0 <= i < k ==> r[i] == a[i])
      && (forall i :: 0 <= i < |elems| ==> r[k + i] == elems[i])
      && (forall i :: k <= i < |a| ==> r[i + |elems|] == a[i])
  {
  }

  /** Insert adds exactly the inserted elements: the result is a permutation of `a + elems`. */
  lemma InsertPermutes<E>(a: seq<E>, index: int, elems: seq<E>)
    ensures multiset(Insert(a, index, elems)) == multiset(a) + multiset(elems)
  {
    var k := Normalise(|a|, index);
    assert a == a[..k] + a[k..];
  }

  /**
    Pop: the sequence without the element at Normalise(|a|, index), and that element.
    When the normalised index equals the length (an empty slice, or an index at or
    past the end) Go reads array[len] and panics: None.
   */
  function Pop<E>(a: seq<E>, index: int): (r: Option<(seq<E>, E)>)
    ensures r.None? <==> Normalise(|a|, index) == |a|
    ensures r.Some? ==> var k := Normalise(|a|, index);
      && |r.value.0| == |a| - 1
      && r.value.1 == a[k]
      && (forall i :: 0 <= i < k ==> r.value.0[i] == a[i])
      && (forall i :: k < i < |a| ==> r.value.0[i - 1] == a[i])
  {
    var k := Normalise(|a|, index);
    if k == |a| then None else Some((a[..k] + a[k + 1..], a[k]))
  }

  /** Pop removes exactly the element it returns. */
  lemma PopPermutes<E>(a: seq<E>, index: int)
    requires Pop(a, index).Some?
    ensures multiset(a) == multiset(Pop(a, index).value.0) + multiset{Pop(a, index).value.1}
  {
    var k := Normalise(|a|, index);
    assert a == a[..k] + [a[k]] + a[k + 1..];
  }

  /** Equal: the lengths agree and the elements agree pointwise. */
  function Equal<E(==)>(a: seq<E>, b: seq<E>): (r: bool)
    ensures r <==> a == b
  {
    if |a| != |b| then false
    else if a == [] then true
    else
      var r := a[0] == b[0] && Equal(a[1..], b[1..]);
      assert a == [a[0]] + a[1..] && b == [b[0]] + b[1..];
      r
  }

  /** IsEmpty: every string is blank (vacuously so for an empty slice). */
  function IsEmpty(a: seq<string>): (r: bool)
    ensures r <==> forall i :: 0 <= i < |a| ==> a[i] == ""
  {
    if a == [] then true
    else
      var r := a[0] == "" && IsEmpty(a[1..]);
      assert r ==> forall i :: 0 <= i < |a| ==> a[i] == "" by {
        if r { forall i | 0 <= i < |a| ensures a[i] == "" { if i > 0 { assert a[i] == a[1..][i - 1]; } } }
      }
      r
  }

  /** Popping the position an element was just inserted at gives back the slice and the element. */
  lemma PopAfterInsert<E>(a: seq<E>, index: int, x: E)
    ensures Pop(Insert(a, index, [x]), Normalise(|a|, index)) == Some((a, x))
  {
    var k := Normalise(|a|, index);
    var b := Insert(a, index, [x]);
    assert Normalise(|b|, k) == k;
    var r := Pop(b, k);
    assert r.value.0 == a;
  }

  /** Membership after Insert: exactly the old members and the inserted ones. */
  lemma ContainsAfterInsert<E>(a: seq<E>, index: int, elems: seq<E>, x: E)
    ensures Contains(Insert(a, index, elems), x) <==> Contains(a, x) || Contains(elems, x)
  {
    var r := Insert(a, index, elems);
    InsertPermutes(a, index, elems);
    assert x in r <==> x in multiset(r);
    assert x in a <==> x in multiset(a);
    assert x in elems <==> x in multiset(elems);
  }
}
