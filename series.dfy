/**
  The column layer (series/series.go): a Series is a name, a slice of
  elements, a declared type and a slice of origin row positions (`indexes`).

  `Column` is the value of a Series struct; the table layer keeps its columns
  by value and uses the functions on `Column` below. The class `Series` holds
  the same four fields and carries the operations that update a Series in
  place (InitIndex, Append, Concat, Format, SetType), the selection sort of
  SortIndex over cloned arrays, and the loops of HasNaN, Copy, SubSet and Drop.
  Each method is proved equal to the function on `Column` that specifies it,
  and the properties are lemmas about those functions.

  A Go panic is the result `None` or `Err(Panic)`; an error return is
  `Err(Error)`.
 */
module SeriesOps {
  import opened Wrappers
  import opened Strconv
  import opened Library
  import opened Elements

  // ---------------------------------------------------------------------------
  // Types and new elements
  // ---------------------------------------------------------------------------

  /** The four type names a Series accepts as its `Type`. */
  const TypeNames: seq<string> := ["string", "int", "float64", "bool"]

  /** The kind a type name stands for; any other name stands for none. */
  function KindNamed(t: string): (r: Option<Kind>)
    ensures r.Some? <==> t in TypeNames
    ensures r.Some? ==> TypeName(r.value) == t
  {
    if t == "string" then Some(StringKind)
    else if t == "int" then Some(IntKind)
    else if t == "float64" then Some(FloatKind)
    else if t == "bool" then Some(BoolKind)
    else None
  }

  lemma KindNamedTypeName(k: Kind)
    ensures KindNamed(TypeName(k)) == Some(k)
  {
  }

  /**
    NewElements(t, l): l new zero elements of the kind t names. For any other
    name the l interface values stay nil, and every later use of one
    dereferences nil: that is None once l > 0.
   */
  function NewElements(t: string, l: nat): (r: Option<seq<Element>>)
    ensures r.None? <==> KindNamed(t).None? && l > 0
    ensures r.Some? ==> |r.value| == l
    ensures r.Some? && l > 0 ==> forall i :: 0 <= i < l ==> r.value[i] == Zero(KindNamed(t).value)
  {
    match KindNamed(t)
    case Some(k) => Some(Repeat(Zero(k), l))
    case None => if l == 0 then Some([]) else None
  }

  /** The value of a Series: its name, elements, declared type and origin positions. */
  datatype Column = Column(name: string, elements: seq<Element>, t: string, indexes: seq<int>)

  /** The readers Records, Int, Float, Bool and Any: one element reader applied to every element, in order. */
  function RecordsOf(c: Column): (r: seq<string>)
    ensures |r| == |c.elements| && forall i :: 0 <= i < |r| ==> r[i] == Records(c.elements[i])
  {
    seq(|c.elements|, i requires 0 <= i < |c.elements| => Records(c.elements[i]))
  }

  function IntsOf(c: Column): (r: seq<Int64>)
    ensures |r| == |c.elements| && forall i :: 0 <= i < |r| ==> r[i] == Int(c.elements[i])
  {
    seq(|c.elements|, i requires 0 <= i < |c.elements| => Int(c.elements[i]))
  }

  function FloatsOf(c: Column): (r: seq<Float64>)
    ensures |r| == |c.elements| && forall i :: 0 <= i < |r| ==> r[i] == Float(c.elements[i])
  {
    seq(|c.elements|, i requires 0 <= i < |c.elements| => Float(c.elements[i]))
  }

  function BoolsOf(c: Column): (r: seq<bool>)
    ensures |r| == |c.elements| && forall i :: 0 <= i < |r| ==> r[i] == Bool(c.elements[i])
  {
    seq(|c.elements|, i requires 0 <= i < |c.elements| => Bool(c.elements[i]))
  }

  function AnysOf(c: Column): (r: seq<Any>)
    ensures |r| == |c.elements| && forall i :: 0 <= i < |r| ==> r[i] == Value(c.elements[i])
  {
    seq(|c.elements|, i requires 0 <= i < |c.elements| => Value(c.elements[i]))
  }

  // ---------------------------------------------------------------------------
  // Append: the recursive walk over nested slices
  // ---------------------------------------------------------------------------

  /** How deeply slices nest in a value: a scalar is 0, a typed slice 1. */
  function Depth(v: Any): nat {
    if v.Anys? then 1 + MaxDepth(v.items)
    else if IsSlice(v) then 1
    else 0
  }

  function MaxDepth(vs: seq<Any>): (d: nat)
    ensures forall i :: 0 <= i < |vs| ==> Depth(vs[i]) <= d
    ensures (forall i :: 0 <= i < |vs| ==> !IsSlice(vs[i])) ==> d == 0
  {
    if vs == [] then 0
    else
      var d := MaxDepth(vs[1..]);
      assert forall i :: 1 <= i < |vs| ==> vs[i] == vs[1..][i - 1];
      if Depth(vs[0]) > d then Depth(vs[0]) else d
  }

  /** The items of a slice nest less deeply than the slice. */
  lemma SliceDepth(v: Any)
    requires IsSlice(v)
    ensures MaxDepth(SliceItems(v)) < Depth(v)
  {
    if !v.Anys? {
      var items := SliceItems(v);
      assert forall i :: 0 <= i < |items| ==> IsScalar(items[i]);
    }
  }

  /**
    The element Append stores for a value that is not a slice: a new element
    of the value's own Go type set from it, or the copy of a given Element.
    Any other type has none.
   */
  /** The values Append stores one element for: a scalar of a supported type, or an Element. */
  predicate Appendable(v: Any) {
    IsScalar(v) || v.Elem?
  }

  function Appended(v: Any): (r: Option<Element>)
    ensures r.Some? <==> Appendable(v)
    ensures v.Elem? ==> r == Some(v.e)
  {
    match v
    case Str(_) => Some(Coerce(StringKind, v))
    case IntV(_) => Some(Coerce(IntKind, v))
    case FloatV(_) => Some(Coerce(FloatKind, v))
    case BoolV(_) => Some(Coerce(BoolKind, v))
    case Elem(e) => Some(e)
    case _ => None
  }

  /**
    Append: a slice appends its items one at a time, recursively, and stops
    at the first failure; nil panics in reflect.TypeOf(nil).Kind(); any other
    value appends one element, or is an error when its type is not supported.
    Every call that does not fail ends with InitIndex. The result is the new
    Series and the failure, if any.
   */
  function AppendOf(c: Column, v: Any): (Column, Option<Failure>)
    decreases Depth(v), 0, 0
  {
    if v.Nil? then (c, Some(Panic))
    else if IsSlice(v) then
      SliceDepth(v);
      AppendItems(c, SliceItems(v))
    else
      match Appended(v)
      case None => (c, Some(Error))
      case Some(x) => (c.(elements := c.elements + [x], indexes := Range(|c.elements| + 1)), None)
  }

  function AppendItems(c: Column, items: seq<Any>): (Column, Option<Failure>)
    decreases MaxDepth(items), 1, |items|
  {
    if items == [] then (c.(indexes := Range(|c.elements|)), None)
    else
      var (c1, err) := AppendOf(c, items[0]);
      if err.Some? then (c1, err) else AppendItems(c1, items[1..])
  }

  /** The values Append reaches, in order: the items of nested slices, flattened. */
  function Flatten(v: Any): (r: seq<Any>)
    ensures forall i :: 0 <= i < |r| ==> !IsSlice(r[i])
    decreases Depth(v), 0, 0
  {
    if IsSlice(v) then
      SliceDepth(v);
      FlattenAll(SliceItems(v))
    else [v]
  }

  function FlattenAll(vs: seq<Any>): (r: seq<Any>)
    ensures forall i :: 0 <= i < |r| ==> !IsSlice(r[i])
    decreases MaxDepth(vs), 1, |vs|
  {
    if vs == [] then [] else Flatten(vs[0]) + FlattenAll(vs[1..])
  }

  predicate AllAppendable(vs: seq<Any>) {
    forall i :: 0 <= i < |vs| ==> Appendable(vs[i])
  }

  /** The elements Append stores for a run of appendable values. */
  function Made(vs: seq<Any>): (r: seq<Element>)
    requires AllAppendable(vs)
    ensures |r| == |vs|
  {
    seq(|vs|, i requires 0 <= i < |vs| => Appended(vs[i]).value)
  }

  lemma MadeAppend(a: seq<Any>, b: seq<Any>)
    requires AllAppendable(a) && AllAppendable(b)
    ensures AllAppendable(a + b) && Made(a + b) == Made(a) + Made(b)
  {
  }

  /**
    How a run of Append calls over the values `flat` ends: at the first value
    of an unsupported type, with a panic when that value is nil and an error
    otherwise; None when every value is supported.
   */
  function FirstFailure(flat: seq<Any>): (r: Option<Failure>)
    ensures r.None? <==> AllAppendable(flat)
  {
    if flat == [] then None
    else if !Appendable(flat[0]) then Some(if flat[0].Nil? then Panic else Error)
    else
      var r := FirstFailure(flat[1..]);
      assert forall i :: 1 <= i < |flat| ==> flat[i] == flat[1..][i - 1];
      r
  }

  /** The failure of a run over two value lists is the first list's, or else the second's. */
  lemma {:induction false} FirstFailureAppend(a: seq<Any>, b: seq<Any>)
    ensures FirstFailure(a + b) == if FirstFailure(a).Some? then FirstFailure(a) else FirstFailure(b)
  {
    if a != [] {
      assert (a + b)[0] == a[0] && (a + b)[1..] == a[1..] + b;
      FirstFailureAppend(a[1..], b);
    } else {
      assert a + b == b;
    }
  }

  /**
    What a run of Append calls promises for the values `flat` it reaches: it
    fails exactly as FirstFailure says; when it succeeds it appends their
    elements in order and resets the indexes to 0 .. Len()-1. It keeps the
    name and type, and even when it fails the elements appended before the
    failure stay.
   */
  predicate AppendsAs(c: Column, res: (Column, Option<Failure>), flat: seq<Any>) {
    && res.1 == FirstFailure(flat)
    && res.0.name == c.name && res.0.t == c.t
    && c.elements <= res.0.elements
    && (res.1.None? ==> AllAppendable(flat) && res.0.elements == c.elements + Made(flat))
    && (res.1.None? ==> res.0.indexes == Range(|res.0.elements|))
  }

  /** A successful run followed by a second run is a run over both value lists. */
  lemma AppendsChain(c: Column, first: (Column, Option<Failure>), f0: seq<Any>, second: (Column, Option<Failure>), rest: seq<Any>)
    requires first.1.None? && AppendsAs(c, first, f0) && AppendsAs(first.0, second, rest)
    ensures AppendsAs(c, second, f0 + rest)
  {
    var c1, r := first.0, second.0;
    assert c.elements <= r.elements by {
      assert c.elements == c1.elements[..|c.elements|];
      assert c1.elements == r.elements[..|c1.elements|];
    }
    FirstFailureAppend(f0, rest);
    if AllAppendable(rest) {
      MadeAppend(f0, rest);
    }
  }

  /** A run that fails stops there: it is a failed run over any longer value list. */
  lemma AppendsStop(c: Column, first: (Column, Option<Failure>), f0: seq<Any>, rest: seq<Any>)
    requires first.1.Some? && AppendsAs(c, first, f0)
    ensures AppendsAs(c, first, f0 + rest)
  {
    FirstFailureAppend(f0, rest);
  }

  /** What Append does, for the values it reaches. */
  lemma {:induction false} AppendMeaning(c: Column, v: Any)
    ensures AppendsAs(c, AppendOf(c, v), Flatten(v))
    decreases Depth(v), 0, 0
  {
    if IsSlice(v) {
      SliceDepth(v);
      AppendItemsMeaning(c, SliceItems(v));
    } else {
      assert Flatten(v) == [v];
      assert [v][1..] == [];
      if Appended(v).Some? {
        assert Made([v]) == [Appended(v).value];
      } else {
        assert [v][0] == v;
      }
    }
  }

  lemma {:induction false} AppendItemsMeaning(c: Column, items: seq<Any>)
    ensures AppendsAs(c, AppendItems(c, items), FlattenAll(items))
    decreases MaxDepth(items), 1, |items|
  {
    if items == [] {
      assert Made([]) == [];
    } else {
      var f0, rest := Flatten(items[0]), FlattenAll(items[1..]);
      assert FlattenAll(items) == f0 + rest;
      AppendMeaning(c, items[0]);
      var first := AppendOf(c, items[0]);
      if first.1.Some? {
        AppendsStop(c, first, f0, rest);
      } else {
        AppendItemsMeaning(first.0, items[1..]);
        AppendsChain(c, first, f0, AppendItems(first.0, items[1..]), rest);
      }
    }
  }

  /**
    A []any whose first unsupported item is nil makes Append panic there,
    after appending the items before it: reflect.TypeOf(nil).Kind() is a
    call on a nil interface.
   */
  lemma AppendReachesNil(c: Column, items: seq<Any>, k: nat)
    requires forall i :: 0 <= i < |items| ==> !IsSlice(items[i])
    requires k < |items| && items[k].Nil?
    requires forall i :: 0 <= i < k ==> Appendable(items[i])
    ensures AppendOf(c, Anys(items)).1 == Some(Panic)
    ensures c.elements <= AppendOf(c, Anys(items)).0.elements
  {
    AppendMeaning(c, Anys(items));
    FlattenScalars(items);
    assert Flatten(Anys(items)) == items;
    FirstFailureAtNil(items, k);
  }

  /** The first failure of a list whose first unappendable value is nil is a panic. */
  lemma FirstFailureAtNil(items: seq<Any>, k: nat)
    requires k < |items| && items[k].Nil?
    requires forall i :: 0 <= i < k ==> Appendable(items[i])
    ensures FirstFailure(items) == Some(Panic)
  {
    var before, after := items[..k], items[k..];
    assert AllAppendable(before) by {
      forall i | 0 <= i < |before| ensures Appendable(before[i]) {
        assert before[i] == items[i];
      }
    }
    assert after[0] == items[k];
    assert FirstFailure(after) == Some(Panic);
    FirstFailureAppend(before, after);
    assert before + after == items;
  }

  // ---------------------------------------------------------------------------
  // Constructors
  // ---------------------------------------------------------------------------

  /** The Go types NewSeries accepts for its values: a slice of one of the four scalar types. */
  predicate IsTypedSlice(v: Any) {
    v.Strs? || v.Ints? || v.Floats? || v.Bools?
  }

  /**
    NewSeries: a nil slice gives an empty Series; a slice whose type name is
    not "[]" + dType is an error; otherwise the new Series appends the slice.
    `values` is None for a nil slice.
   */
  function NewSeriesOf(values: Option<Any>, dType: string, name: string): (r: Result<Column, Failure>)
    requires values.Some? ==> IsTypedSlice(values.value)
  {
    match values
    case None => Ok(Column(name, [], dType, []))
    case Some(v) =>
      if GoTypeName(v) != "[]" + dType then Err(Error)
      else
        var (c, err) := AppendOf(Column(name, [], dType, []), v);
        if err.None? then Ok(c) else Err(err.value)
  }

  /**
    LoadRecords: one element of type t per text, each set from its text, and
    the indexes 0 .. n-1. For an unknown type the elements are nil and the
    first Set panics (None).
   */
  function LoadRecordsOf(values: seq<string>, t: string, name: string): (r: Option<Column>)
    ensures r.None? <==> KindNamed(t).None? && |values| > 0
  {
    match NewElements(t, |values|)
    case None => None
    case Some(z) =>
      Some(Column(name, seq(|values|, i requires 0 <= i < |values| => Set(z[i], Str(values[i])).value), t, Range(|values|)))
  }

  // ---------------------------------------------------------------------------
  // SetType, Concat, Copy, Format
  // ---------------------------------------------------------------------------

  /** An element read as the Go type of kind k: Records, Int, Float or Bool. */
  function Reading(k: Kind, e: Element): (r: Any)
    ensures IsScalar(r)
  {
    match k
    case StringKind => Str(Records(e))
    case IntKind => IntV(Int(e))
    case FloatKind => FloatV(Float(e))
    case BoolKind => BoolV(Bool(e))
  }

  /** The slice SetType hands to Append: s.Records(), s.Int(), s.Float() or s.Bool(). */
  function Readings(k: Kind, es: seq<Element>): (r: Any)
    ensures IsTypedSlice(r) && GoTypeName(r) == "[]" + TypeName(k)
    ensures |SliceItems(r)| == |es| && forall i :: 0 <= i < |es| ==> SliceItems(r)[i] == Reading(k, es[i])
  {
    match k
    case StringKind => Strs(seq(|es|, i requires 0 <= i < |es| => Records(es[i])))
    case IntKind => Ints(seq(|es|, i requires 0 <= i < |es| => Int(es[i])))
    case FloatKind => Floats(seq(|es|, i requires 0 <= i < |es| => Float(es[i])))
    case BoolKind => Bools(seq(|es|, i requires 0 <= i < |es| => Bool(es[i])))
  }

  /** Every element re-made as kind k from its reading as kind k. */
  function Converted(k: Kind, es: seq<Element>): (r: seq<Element>)
    ensures |r| == |es| && forall i :: 0 <= i < |r| ==> KindOf(r[i]) == k
  {
    seq(|es|, i requires 0 <= i < |es| => Coerce(k, Reading(k, es[i])))
  }

  /**
    SetType: the same type changes nothing; an unknown type is an error;
    otherwise a new Series of the new type appends the old elements' readings
    and replaces the receiver.
   */
  function SetTypeOf(c: Column, t: string): (r: Result<Column, Failure>)
  {
    if c.t == t then Ok(c)
    else
      match KindNamed(t)
      case None => Err(Error)
      case Some(k) =>
        var (n, err) := AppendOf(Column(c.name, [], t, c.indexes), Readings(k, c.elements));
        if err.None? then Ok(n) else Err(err.value)
  }

  /**
    Concat: the other Series is first converted to the receiver's type when
    the types differ (its error is returned), then its elements follow the
    receiver's and the indexes are reset.
   */
  function ConcatOf(c: Column, x: Column): (r: Result<Column, Failure>)
  {
    match SetTypeOf(x, c.t)
    case Err(e) => Err(e)
    case Ok(y) => Ok(c.(elements := c.elements + y.elements, indexes := Range(|c.elements| + |y.elements|)))
  }

  /**
    Copy: new elements of the Series' type, each updated from the old one;
    the indexes slice is shared. An unknown type leaves the new elements nil
    and the first update panics (None).
   */
  function CopyOf(c: Column): (r: Option<Column>)
    ensures r.None? <==> KindNamed(c.t).None? && |c.elements| > 0
  {
    match NewElements(c.t, |c.elements|)
    case None => None
    case Some(z) => Some(c.(elements := seq(|z|, i requires 0 <= i < |z| => Update(z[i], c.elements[i]))))
  }

  /** Format: every element updated from what f returns for its position and itself. */
  function FormatOf(c: Column, f: (int, Element) -> Element): (r: Column)
  {
    c.(elements := seq(|c.elements|, i requires 0 <= i < |c.elements| => Update(c.elements[i], f(i, c.elements[i]))))
  }

  // ---------------------------------------------------------------------------
  // SubSet and Drop
  // ---------------------------------------------------------------------------

  /**
    SubSet: copies of the requested elements, in the requested order, with
    the request as the new indexes. An empty request panics in slices.Max, a
    largest index at or past the end is an error, and a negative index panics.
   */
  function SubSetOf(c: Column, idx: seq<int>): (r: Result<Column, Failure>)
    ensures r.Ok? <==> idx != [] && forall i :: 0 <= i < |idx| ==> 0 <= idx[i] < |c.elements|
    ensures r.Err? && r.error == Error <==> exists i :: 0 <= i < |idx| && idx[i] >= |c.elements|
    ensures r.Ok? ==>
      && r.value.name == c.name && r.value.t == c.t && r.value.indexes == idx
      && |r.value.elements| == |idx|
      && forall i :: 0 <= i < |idx| ==> r.value.elements[i] == c.elements[idx[i]]
  {
    match Max(idx)
    case None => Err(Panic)
    case Some(m) =>
      assert forall i :: 0 <= i < |idx| ==> idx[i] in idx && idx[i] <= m;
      if m >= |c.elements| then Err(Error)
      else if exists i :: 0 <= i < |idx| && idx[i] < 0 then Err(Panic)
      else Ok(Column(c.name, seq(|idx|, i requires 0 <= i < |idx| => c.elements[idx[i]]), c.t, idx))
  }

  /**
    The positions Drop deletes, in order, as written: slices.Compact leaves
    the distinct run heads at the front and zeroes the tail, only that front
    is sorted highest first, and the loop runs over the whole original slice.
   */
  function DropOrderAsWritten(idx: seq<int>): seq<int> {
    var u := Compact(idx);
    SortDescending(u) + Repeat(0, |idx| - |u|)
  }

  /** The deletion order Drop evidently intends: sorted highest first, then without repeats. */
  function DropOrder(idx: seq<int>): (r: seq<int>)
    ensures StrictlyDescending(r)
    ensures forall x :: x in r <==> x in idx
  {
    var d := SortDescending(idx);
    CompactDescendingDistinct(d);
    assert forall x :: x in d <==> x in idx by {
      forall x ensures x in d <==> x in idx {
        assert x in d <==> x in multiset(d);
        assert x in idx <==> x in multiset(idx);
      }
    }
    Compact(d)
  }

  /** Drop as written: a copy of the Series with the positions of DropOrderAsWritten deleted in turn; a deletion out of range panics. */
  function DropAsWritten(c: Column, idx: seq<int>): (r: Option<Column>)
  {
    match CopyOf(c)
    case None => None
    case Some(d) =>
      var (rest, ok) := DeleteEach(d.elements, DropOrderAsWritten(idx));
      if ok then Some(d.(elements := rest)) else None
  }

  /** Drop with the intended order: a copy of the Series without the requested positions. */
  function DropOf(c: Column, idx: seq<int>): (r: Option<Column>)
  {
    match CopyOf(c)
    case None => None
    case Some(d) =>
      var (rest, ok) := DeleteEach(d.elements, DropOrder(idx));
      if ok then Some(d.(elements := rest)) else None
  }

  // ---------------------------------------------------------------------------
  // Properties of the constructors, SetType, Concat, Copy and Drop
  // ---------------------------------------------------------------------------

  lemma {:induction false} FlattenScalars(vs: seq<Any>)
    requires forall i :: 0 <= i < |vs| ==> !IsSlice(vs[i])
    ensures FlattenAll(vs) == vs
    decreases |vs|
  {
    if vs != [] {
      FlattenScalars(vs[1..]);
      assert Flatten(vs[0]) == [vs[0]];
      assert vs == [vs[0]] + vs[1..];
    }
  }

  /** A typed slice flattens to its own items. */
  lemma FlattenTyped(v: Any)
    requires IsTypedSlice(v)
    ensures Flatten(v) == SliceItems(v)
  {
    SliceDepth(v);
    FlattenScalars(SliceItems(v));
  }

  /**
    NewSeries succeeds exactly for a nil slice or a slice of the requested
    type; the Series then holds one element of that type per value, in order,
    with indexes 0 .. n-1.
   */
  lemma NewSeriesMeaning(values: Option<Any>, dType: string, name: string)
    requires values.Some? ==> IsTypedSlice(values.value)
    ensures NewSeriesOf(values, dType, name).Ok? <==> values.None? || GoTypeName(values.value) == "[]" + dType
    ensures NewSeriesOf(values, dType, name).Ok? ==>
      && NewSeriesOf(values, dType, name).value.name == name
      && NewSeriesOf(values, dType, name).value.t == dType
    ensures NewSeriesOf(values, dType, name).Ok? && values.Some? ==>
      && NewSeriesOf(values, dType, name).value.elements == Made(SliceItems(values.value))
      && NewSeriesOf(values, dType, name).value.indexes == Range(SliceLen(values.value))
      && forall i :: 0 <= i < SliceLen(values.value) ==>
           TypeName(KindOf(NewSeriesOf(values, dType, name).value.elements[i])) == dType
  {
    if values.Some? {
      var v := values.value;
      var base := Column(name, [], dType, []);
      FlattenTyped(v);
      AppendMeaning(base, v);
      if GoTypeName(v) == "[]" + dType {
        MadeTyped(v, dType);
        assert [] + Made(SliceItems(v)) == Made(SliceItems(v));
      }
    }
  }

  /** The elements Append makes from a typed slice all have the slice's element type. */
  lemma MadeTyped(v: Any, dType: string)
    requires IsTypedSlice(v) && GoTypeName(v) == "[]" + dType
    ensures AllAppendable(SliceItems(v))
    ensures forall i :: 0 <= i < SliceLen(v) ==> TypeName(KindOf(Made(SliceItems(v))[i])) == dType
  {
    var items := SliceItems(v);
    assert dType == ("[]" + dType)[2..];
    forall i | 0 <= i < SliceLen(v) ensures Appended(items[i]).Some? && TypeName(KindOf(Appended(items[i]).value)) == dType {
      match v
      case Strs(ss) => assert items[i] == Str(ss[i]);
      case Ints(ns) => assert items[i] == IntV(ns[i]);
      case Floats(fs) => assert items[i] == FloatV(fs[i]);
      case Bools(bs) => assert items[i] == BoolV(bs[i]);
    }
  }

  /**
    LoadRecords with a known type holds one element of that type per text,
    each read back as the text after Set's coercion, with indexes 0 .. n-1.
   */
  lemma LoadRecordsMeaning(values: seq<string>, t: string, name: string, k: Kind)
    requires KindNamed(t) == Some(k)
    ensures LoadRecordsOf(values, t, name).Some?
    ensures LoadRecordsOf(values, t, name).value.name == name && LoadRecordsOf(values, t, name).value.t == t
    ensures LoadRecordsOf(values, t, name).value.indexes == Range(|values|)
    ensures |LoadRecordsOf(values, t, name).value.elements| == |values|
    ensures forall i :: 0 <= i < |values| ==> KindOf(LoadRecordsOf(values, t, name).value.elements[i]) == k
    ensures k == StringKind ==> forall i :: 0 <= i < |values| ==>
      Records(LoadRecordsOf(values, t, name).value.elements[i]) == if values[i] in NullTexts then "NaN" else values[i]
    ensures k == IntKind ==> forall i :: 0 <= i < |values| ==>
      Int(LoadRecordsOf(values, t, name).value.elements[i]) == match Atoi(values[i]) case Some(n) => n case None => MinInt
    ensures k == BoolKind ==> forall i :: 0 <= i < |values| ==>
      Bool(LoadRecordsOf(values, t, name).value.elements[i]) == !(values[i] in FalseTexts)
  {
    var es := LoadRecordsOf(values, t, name).value.elements;
    forall i | 0 <= i < |values|
      ensures KindOf(es[i]) == k
      ensures k == StringKind ==> Records(es[i]) == if values[i] in NullTexts then "NaN" else values[i]
      ensures k == IntKind ==> Int(es[i]) == match Atoi(values[i]) case Some(n) => n case None => MinInt
      ensures k == BoolKind ==> Bool(es[i]) == !(values[i] in FalseTexts)
    {
      assert es[i] == Set(Zero(k), Str(values[i])).value;
      if k == StringKind {
        SetText(Zero(k), values[i]);
      }
    }
  }

  /** Reading an element as kind k, re-making it as kind k and reading it again gives the same reading. */
  lemma ReadBack(k: Kind, e: Element)
    requires WellFormed(e)
    ensures Reading(k, Coerce(k, Reading(k, e))) == Reading(k, e)
  {
    if k == StringKind && !e.StringElem? {
      var x := Records(e);
      if x != "" && x[0] != 'N' && x[0] != 'n' {
        NotNullText(x);
      }
    }
  }

  /** Copy and update make the same element: the kind's zero re-set from the source's reading. */
  lemma UpdateIsCoerce(k: Kind, e: Element)
    ensures Update(Zero(k), e) == Coerce(k, Reading(k, e))
  {
  }

  /**
    SetType to a different known type keeps the name and the length, sets the
    type, re-makes every element from its reading as the new type and resets
    the indexes to 0 .. n-1.
   */
  lemma SetTypeMeaning(c: Column, t: string, k: Kind)
    requires c.t != t && KindNamed(t) == Some(k)
    ensures SetTypeOf(c, t) == Ok(Column(c.name, Converted(k, c.elements), t, Range(|c.elements|)))
  {
    var base := Column(c.name, [], t, c.indexes);
    var v := Readings(k, c.elements);
    var items := SliceItems(v);
    FlattenTyped(v);
    AppendMeaning(base, v);
    assert AllAppendable(items);
    assert Made(items) == Converted(k, c.elements);
    assert [] + Made(items) == Made(items);
  }

  /** The readings SetType is built from survive it: the new elements read as the new type exactly as the old ones did. */
  lemma SetTypeKeepsReadings(c: Column, t: string, k: Kind)
    requires KindNamed(t) == Some(k)
    requires forall i :: 0 <= i < |c.elements| ==> WellFormed(c.elements[i])
    ensures SetTypeOf(c, t).Ok? && |SetTypeOf(c, t).value.elements| == |c.elements|
    ensures forall i :: 0 <= i < |c.elements| ==> Reading(k, SetTypeOf(c, t).value.elements[i]) == Reading(k, c.elements[i])
  {
    if c.t != t {
      SetTypeMeaning(c, t, k);
      forall i | 0 <= i < |c.elements|
        ensures Reading(k, SetTypeOf(c, t).value.elements[i]) == Reading(k, c.elements[i])
      {
        ReadBack(k, c.elements[i]);
      }
    }
  }

  /**
    Concat fails exactly when the types differ and the receiver's type is
    unknown; otherwise the other Series' elements, converted to the
    receiver's type when the types differ, follow the receiver's, and the
    indexes are 0 .. n-1.
   */
  lemma ConcatMeaning(c: Column, x: Column)
    ensures ConcatOf(c, x).Ok? <==> x.t == c.t || KindNamed(c.t).Some?
    ensures ConcatOf(c, x).Ok? ==>
      && ConcatOf(c, x).value.name == c.name && ConcatOf(c, x).value.t == c.t
      && ConcatOf(c, x).value.elements
           == c.elements + (if x.t == c.t then x.elements else Converted(KindNamed(c.t).value, x.elements))
      && ConcatOf(c, x).value.indexes == Range(|c.elements| + |x.elements|)
  {
    if x.t != c.t && KindNamed(c.t).Some? {
      SetTypeMeaning(x, c.t, KindNamed(c.t).value);
    }
  }

  /** Copy of a Series of a known type: the same Series but for elements re-made from their readings. */
  lemma CopyMeaning(c: Column, k: Kind)
    requires KindNamed(c.t) == Some(k)
    ensures CopyOf(c) == Some(c.(elements := Converted(k, c.elements)))
  {
    forall i | 0 <= i < |c.elements|
      ensures CopyOf(c).value.elements[i] == Converted(k, c.elements)[i]
    {
      UpdateIsCoerce(k, c.elements[i]);
    }
    assert CopyOf(c).value.elements == Converted(k, c.elements);
  }

  /** A Series whose elements are what Set makes, of the Series' own type, copies to an equal Series. */
  lemma CopyKeepsValues(c: Column, k: Kind)
    requires KindNamed(c.t) == Some(k)
    requires forall i :: 0 <= i < |c.elements| ==> KindOf(c.elements[i]) == k && WellFormed(c.elements[i])
    ensures CopyOf(c) == Some(c)
  {
    forall i | 0 <= i < |c.elements|
      ensures CopyOf(c).value.elements[i] == c.elements[i]
    {
      assert Update(Zero(k), c.elements[i]) == Update(c.elements[i], c.elements[i]);
      UpdateSelf(c.elements[i]);
    }
    assert CopyOf(c).value.elements == c.elements;
  }

  /**
    Drop with in-range positions gives the copy without exactly those
    positions, the others in their order; it shrinks by the number of
    distinct positions.
   */
  lemma DropRemovesExactly(c: Column, idx: seq<int>)
    requires CopyOf(c).Some?
    requires forall i :: 0 <= i < |idx| ==> 0 <= idx[i] < |c.elements|
    ensures DropOf(c, idx) == Some(CopyOf(c).value.(elements := Keep(CopyOf(c).value.elements, set x | x in idx)))
    ensures |DropOf(c, idx).value.elements| == |c.elements| - |set x | x in idx|
  {
    var d := CopyOf(c).value;
    var u := DropOrder(idx);
    assert forall i :: 0 <= i < |u| ==> 0 <= u[i] < |d.elements| by {
      forall i | 0 <= i < |u| ensures 0 <= u[i] < |d.elements| {
        assert u[i] in idx;
      }
    }
    DeleteDescending(d.elements, u);
    assert (set x | x in u) == (set x | x in idx);
    KeepLength(d.elements, set x | x in idx);
  }

  /** Drop with a position out of range panics. */
  lemma DropOutOfRange(c: Column, idx: seq<int>)
    requires exists i :: 0 <= i < |idx| && !(0 <= idx[i] < |c.elements|)
    ensures DropOf(c, idx).None?
  {
    if CopyOf(c).Some? {
      var i :| 0 <= i < |idx| && !(0 <= idx[i] < |c.elements|);
      assert idx[i] in DropOrder(idx);
      DeleteEachFails(CopyOf(c).value.elements, DropOrder(idx));
    }
  }

  /**
    The discrepancy of Drop as written: dropping position 1 twice from three
    elements deletes positions 1 and then 0, where the intended Drop deletes
    position 1 only.
   */
  lemma DropAsWrittenLosesElement()
    ensures DropAsWritten(Column("s", [IntElem(10), IntElem(20), IntElem(30)], "int", [0, 1, 2]), [1, 1])
      == Some(Column("s", [IntElem(30)], "int", [0, 1, 2]))
    ensures DropOf(Column("s", [IntElem(10), IntElem(20), IntElem(30)], "int", [0, 1, 2]), [1, 1])
      == Some(Column("s", [IntElem(10), IntElem(30)], "int", [0, 1, 2]))
  {
    var c := Column("s", [IntElem(10), IntElem(20), IntElem(30)], "int", [0, 1, 2]);
    CopyKeepsValues(c, IntKind);
    RepeatedOneOrders([1, 1]);
    DeleteTwice(c.elements);
  }

  lemma DeleteTwice(s: seq<Element>)
    requires s == [IntElem(10), IntElem(20), IntElem(30)]
    ensures DeleteEach(s, [1, 0]) == ([IntElem(30)], true)
    ensures DeleteEach(s, [1]) == ([IntElem(10), IntElem(30)], true)
  {
    assert s[..1] + s[2..] == [IntElem(10), IntElem(30)];
    var t := [IntElem(10), IntElem(30)];
    assert t[..0] + t[1..] == [IntElem(30)];
    assert [1, 0][1..] == [0];
  }

  lemma RepeatedOneOrders(idx: seq<int>)
    requires idx == [1, 1]
    ensures DropOrderAsWritten(idx) == [1, 0]
    ensures DropOrder(idx) == [1]
  {
    RepeatedAsWritten(1);
    RepeatZeroOnce();
    SortDescendingPair(1);
    CompactPair(1);
  }

  /** A position given twice: Drop as written deletes it and then position 0. */
  lemma RepeatedAsWritten(x: int)
    ensures DropOrderAsWritten([x, x]) == [x] + Repeat(0, 1)
  {
    CompactPair(x);
    SortDescendingPair(x);
  }

  lemma RepeatZeroOnce()
    ensures Repeat(0, 1) == [0]
  {
    assert Repeat(0, 1)[0] == 0;
  }

  lemma CompactPair(x: int)
    ensures Compact([x, x]) == [x]
  {
    assert [x, x][..1] == [x];
  }

  lemma SortDescendingPair(x: int)
    ensures SortDescending([x]) == [x] && SortDescending([x, x]) == [x, x]
  {
    assert Sort([x]) == [x];
    assert [x, x][1..] == [x];
    assert Sort([x, x]) == InsertAscending(x, [x]) == [x, x];
  }

  // ---------------------------------------------------------------------------
  // SortIndex: a selection sort by one key per element
  // ---------------------------------------------------------------------------

  /** What SortIndex compares: the text of a text Series, the int of an int Series, the float64 of a float64 Series. */
  datatype Key = TextKey(text: string) | IntKey(i: int) | FloatKey(f: Float64)

  function CompareInts(a: int, b: int): int {
    if a < b then -1 else if a > b then 1 else 0
  }

  /** cmp.Compare on strings: byte order, which on UTF-8 text is the order of the code points. */
  function CompareTexts(a: string, b: string): int {
    if a == [] || b == [] then CompareInts(|a|, |b|)
    else if a[0] != b[0] then CompareInts(a[0] as int, b[0] as int)
    else CompareTexts(a[1..], b[1..])
  }

  /** cmp.Compare on float64: NaN is below every number and equal to NaN. */
  function CompareFloats(a: Float64, b: Float64): int {
    match (a, b)
    case (NaN, NaN) => 0
    case (NaN, Num(_)) => -1
    case (Num(_), NaN) => 1
    case (Num(x), Num(y)) => CompareInts(x, y)
  }

  function Compare(a: Key, b: Key): int {
    match (a, b)
    case (TextKey(x), TextKey(y)) => CompareTexts(x, y)
    case (IntKey(x), IntKey(y)) => CompareInts(x, y)
    case (FloatKey(x), FloatKey(y)) => CompareFloats(x, y)
    case _ => 0
  }

  /** The comparison SortIndex hands to MinFunc: a sorts before b; `reverse` swaps the operands. */
  predicate Before(a: Key, b: Key, reverse: bool) {
    if reverse then Compare(b, a) < 0 else Compare(a, b) < 0
  }

  lemma {:induction false} CompareTextsTransitive(a: string, b: string, c: string)
    requires CompareTexts(a, b) < 0 && CompareTexts(b, c) < 0
    ensures CompareTexts(a, c) < 0
    decreases |a|
  {
    if a != [] && b != [] && c != [] && a[0] == b[0] && b[0] == c[0] {
      CompareTextsTransitive(a[1..], b[1..], c[1..]);
    }
  }

  lemma {:induction false} CompareTextsSelf(a: string)
    ensures CompareTexts(a, a) == 0
    decreases |a|
  {
    if a != [] {
      CompareTextsSelf(a[1..]);
    }
  }

  /** Sorting before is a strict order: transitive and irreflexive. */
  lemma BeforeTransitive(a: Key, b: Key, c: Key, reverse: bool)
    requires Before(a, b, reverse) && Before(b, c, reverse)
    ensures Before(a, c, reverse)
  {
    if a.TextKey? && b.TextKey? && c.TextKey? {
      if reverse {
        CompareTextsTransitive(c.text, b.text, a.text);
      } else {
        CompareTextsTransitive(a.text, b.text, c.text);
      }
    }
  }

  lemma BeforeIrreflexive(a: Key, reverse: bool)
    ensures !Before(a, a, reverse)
  {
    if a.TextKey? {
      CompareTextsSelf(a.text);
    }
  }

  /** The key of an element in a Series of kind k (a bool Series has none: it panics). */
  function KeyOf(k: Kind, e: Element): Key
    requires k != BoolKind
  {
    match k
    case StringKind => TextKey(Records(e))
    case IntKind => IntKey(Int(e))
    case FloatKind => FloatKey(Float(e))
  }

  /** The keys SortIndex sorts: those of the elements of s.Copy(). */
  function SortKeys(k: Kind, es: seq<Element>): (r: seq<Key>)
    requires k != BoolKind
    ensures |r| == |es|
  {
    seq(|es|, i requires 0 <= i < |es| => KeyOf(k, Update(Zero(k), es[i])))
  }

  /**
    slices.MinFunc over keys[lo..hi], as the position of its result: the
    running minimum starts at the first key and moves only to a key that
    sorts strictly before it.
   */
  function MinAt(keys: seq<Key>, lo: nat, hi: nat, reverse: bool): (j: nat)
    requires lo < hi <= |keys|
    ensures lo <= j < hi
    decreases hi
  {
    if hi == lo + 1 then lo
    else
      var m := MinAt(keys, lo, hi - 1, reverse);
      if Before(keys[hi - 1], keys[m], reverse) then hi - 1 else m
  }

  /** No key in the range sorts before the one MinFunc picks. */
  lemma {:induction false} MinAtIsMinimal(keys: seq<Key>, lo: nat, hi: nat, reverse: bool)
    requires lo < hi <= |keys|
    ensures forall q :: lo <= q < hi ==> !Before(keys[q], keys[MinAt(keys, lo, hi, reverse)], reverse)
    decreases hi
  {
    var j := MinAt(keys, lo, hi, reverse);
    BeforeIrreflexive(keys[j], reverse);
    if hi > lo + 1 {
      MinAtIsMinimal(keys, lo, hi - 1, reverse);
      var m := MinAt(keys, lo, hi - 1, reverse);
      if j == hi - 1 {
        forall q | lo <= q < hi - 1 ensures !Before(keys[q], keys[j], reverse) {
          if Before(keys[q], keys[j], reverse) {
            BeforeTransitive(keys[q], keys[j], keys[m], reverse);
          }
        }
      }
    }
  }

  function Swap<T>(s: seq<T>, i: nat, j: nat): (r: seq<T>)
    requires i < |s| && j < |s|
    ensures |r| == |s|
  {
    s[i := s[j]][j := s[i]]
  }

  /**
    The selection sort of SortIndex from position i on: the key MinFunc picks
    among keys[i..] is swapped to position i, and the index at the same
    positions with it.
   */
  function SelectFrom(keys: seq<Key>, idx: seq<int>, i: nat, reverse: bool): (r: (seq<Key>, seq<int>))
    requires i <= |keys| <= |idx|
    ensures |r.0| == |keys| && |r.1| == |idx|
    decreases |keys| - i
  {
    if i == |keys| then (keys, idx)
    else
      var j := MinAt(keys, i, |keys|, reverse);
      SelectFrom(Swap(keys, i, j), Swap(idx, i, j), i + 1, reverse)
  }

  /**
    SortIndex: the Series' indexes reordered by the selection sort. It panics
    (None) when the copy has nil elements (an unknown type), when a bool
    Series has two elements to compare, or when there are fewer indexes than
    elements.
   */
  function SortIndexOf(c: Column, reverse: bool): (r: Option<seq<int>>)
    ensures r.None? <==>
      || |c.indexes| < |c.elements|
      || (|c.elements| > 0 && KindNamed(c.t).None?)
      || (c.t == "bool" && |c.elements| >= 2)
    ensures r.Some? ==> |r.value| == |c.indexes|
  {
    var n := |c.elements|;
    if n == 0 then Some(c.indexes)
    else
      match KindNamed(c.t)
      case None => None
      case Some(k) =>
        if |c.indexes| < n then None
        else if k == BoolKind then (if n >= 2 then None else Some(c.indexes))
        else Some(SelectFrom(SortKeys(k, c.elements), c.indexes, 0, reverse).1)
  }

  /** Keys that never sort before an earlier key: ascending, or descending when `reverse`. */
  predicate SortedBy(keys: seq<Key>, reverse: bool) {
    forall p, q :: 0 <= p < q < |keys| ==> !Before(keys[q], keys[p], reverse)
  }

  /** The first i positions hold keys no later key sorts before. */
  predicate Settled(keys: seq<Key>, i: nat, reverse: bool) {
    forall p, q :: 0 <= p < i && p < q < |keys| ==> !Before(keys[q], keys[p], reverse)
  }

  lemma SettledStep(keys: seq<Key>, i: nat, j: nat, reverse: bool)
    requires i < |keys| && j == MinAt(keys, i, |keys|, reverse)
    requires Settled(keys, i, reverse)
    ensures Settled(Swap(keys, i, j), i + 1, reverse)
  {
    var s := Swap(keys, i, j);
    MinAtIsMinimal(keys, i, |keys|, reverse);
    forall p, q | 0 <= p < i + 1 && p < q < |s| ensures !Before(s[q], s[p], reverse) {
      if q < i {
        assert s[q] == keys[q] && s[p] == keys[p];
      } else {
        var q' := if q == j then i else if q == i then j else q;
        assert s[q] == keys[q'] && q' >= i;
        if p < i {
          assert s[p] == keys[p];
        } else {
          assert s[p] == keys[j];
        }
      }
    }
  }

  /** The selection sort leaves the keys sorted. */
  lemma {:induction false} SelectFromSorts(keys: seq<Key>, idx: seq<int>, i: nat, reverse: bool)
    requires i <= |keys| <= |idx|
    requires Settled(keys, i, reverse)
    ensures SortedBy(SelectFrom(keys, idx, i, reverse).0, reverse)
    decreases |keys| - i
  {
    if i < |keys| {
      var j := MinAt(keys, i, |keys|, reverse);
      SettledStep(keys, i, j, reverse);
      SelectFromSorts(Swap(keys, i, j), Swap(idx, i, j), i + 1, reverse);
    }
  }

  lemma SwapPermutes<T>(s: seq<T>, i: nat, j: nat)
    requires i < |s| && j < |s|
    ensures multiset(Swap(s, i, j)) == multiset(s)
  {
    if i != j {
      var t := s[i := s[j]];
      assert multiset(t) == multiset(s) - multiset{s[i]} + multiset{s[j]};
    }
  }

  /** Each key with the index at the same position. */
  function Pairs(keys: seq<Key>, idx: seq<int>): (r: seq<(Key, int)>)
    requires |keys| <= |idx|
    ensures |r| == |keys|
  {
    seq(|keys|, i requires 0 <= i < |keys| => (keys[i], idx[i]))
  }

  /**
    The selection sort only swaps: the indexes are a permutation of the old
    ones, each key stays paired with its index, and indexes past the keys
    stay where they are.
   */
  lemma SelectFromPermutes(keys: seq<Key>, idx: seq<int>, i: nat, reverse: bool)
    requires i <= |keys| <= |idx|
    ensures multiset(SelectFrom(keys, idx, i, reverse).1) == multiset(idx)
    ensures multiset(Pairs(SelectFrom(keys, idx, i, reverse).0, SelectFrom(keys, idx, i, reverse).1)) == multiset(Pairs(keys, idx))
    ensures SelectFrom(keys, idx, i, reverse).1[|keys|..] == idx[|keys|..]
  {
    SelectFromSwaps(keys, idx, i, reverse);
    SelectFromKeepsTail(keys, idx, i, reverse);
  }

  lemma {:induction false} SelectFromSwaps(keys: seq<Key>, idx: seq<int>, i: nat, reverse: bool)
    requires i <= |keys| <= |idx|
    ensures multiset(SelectFrom(keys, idx, i, reverse).1) == multiset(idx)
    ensures multiset(Pairs(SelectFrom(keys, idx, i, reverse).0, SelectFrom(keys, idx, i, reverse).1)) == multiset(Pairs(keys, idx))
    decreases |keys| - i
  {
    if i < |keys| {
      var j := MinAt(keys, i, |keys|, reverse);
      var k2, i2 := Swap(keys, i, j), Swap(idx, i, j);
      SelectFromSwaps(k2, i2, i + 1, reverse);
      SwapPermutes(idx, i, j);
      assert Pairs(k2, i2) == Swap(Pairs(keys, idx), i, j);
      SwapPermutes(Pairs(keys, idx), i, j);
    }
  }

  /** The indexes past the keys are never swapped. */
  lemma {:induction false} SelectFromKeepsTail(keys: seq<Key>, idx: seq<int>, i: nat, reverse: bool)
    requires i <= |keys| <= |idx|
    ensures SelectFrom(keys, idx, i, reverse).1[|keys|..] == idx[|keys|..]
    decreases |keys| - i
  {
    if i < |keys| {
      var j := MinAt(keys, i, |keys|, reverse);
      var k2, i2 := Swap(keys, i, j), Swap(idx, i, j);
      SelectFromKeepsTail(k2, i2, i + 1, reverse);
      assert i2[|keys|..] == idx[|keys|..];
    }
  }

  /** When every key is the key of the position its index names, the sort keeps it so. */
  lemma {:induction false} SelectFromTracks(keys: seq<Key>, idx: seq<int>, i: nat, reverse: bool, orig: seq<Key>)
    requires i <= |keys| <= |idx|
    requires forall q :: 0 <= q < |keys| ==> 0 <= idx[q] < |orig| && keys[q] == orig[idx[q]]
    ensures forall q :: 0 <= q < |keys| ==>
      && 0 <= SelectFrom(keys, idx, i, reverse).1[q] < |orig|
      && SelectFrom(keys, idx, i, reverse).0[q] == orig[SelectFrom(keys, idx, i, reverse).1[q]]
    decreases |keys| - i
  {
    if i < |keys| {
      var j := MinAt(keys, i, |keys|, reverse);
      SelectFromTracks(Swap(keys, i, j), Swap(idx, i, j), i + 1, reverse, orig);
    }
  }

  /**
    SortIndex of a text, int or float64 Series with enough indexes returns a
    permutation of its indexes, each paired with its element's key, and the
    keys in the returned order are sorted (descending when `reverse`).
   */
  lemma SortIndexSorts(c: Column, reverse: bool, k: Kind)
    requires KindNamed(c.t) == Some(k) && k != BoolKind && |c.indexes| >= |c.elements|
    ensures SortIndexOf(c, reverse).Some?
    ensures multiset(SortIndexOf(c, reverse).value) == multiset(c.indexes)
    ensures |c.elements| > 0 ==>
      var sorted := SelectFrom(SortKeys(k, c.elements), c.indexes, 0, reverse);
      && SortIndexOf(c, reverse).value == sorted.1
      && SortedBy(sorted.0, reverse)
      && multiset(Pairs(sorted.0, sorted.1)) == multiset(Pairs(SortKeys(k, c.elements), c.indexes))
  {
    if |c.elements| > 0 {
      var keys := SortKeys(k, c.elements);
      SelectFromSorts(keys, c.indexes, 0, reverse);
      SelectFromPermutes(keys, c.indexes, 0, reverse);
    }
  }

  /**
    After InitIndex (indexes 0 .. n-1), SortIndex of a text, int or float64
    Series returns a permutation of 0 .. n-1 that lists the positions in key
    order.
   */
  lemma SortIndexOfPositions(c: Column, reverse: bool, k: Kind)
    requires KindNamed(c.t) == Some(k) && k != BoolKind && c.indexes == Range(|c.elements|)
    ensures SortIndexOf(c, reverse).Some?
    ensures multiset(SortIndexOf(c, reverse).value) == multiset(Range(|c.elements|))
    ensures forall q :: 0 <= q < |c.elements| ==> 0 <= SortIndexOf(c, reverse).value[q] < |c.elements|
    ensures forall p, q :: 0 <= p < q < |c.elements| ==>
      !Before(SortKeys(k, c.elements)[SortIndexOf(c, reverse).value[q]],
              SortKeys(k, c.elements)[SortIndexOf(c, reverse).value[p]], reverse)
  {
    var n := |c.elements|;
    SortIndexSorts(c, reverse, k);
    if n > 0 {
      var keys := SortKeys(k, c.elements);
      var sorted := SelectFrom(keys, c.indexes, 0, reverse);
      SelectFromTracks(keys, c.indexes, 0, reverse, keys);
      assert SortIndexOf(c, reverse).value == sorted.1;
    }
  }

  // ---------------------------------------------------------------------------
  // Filter
  // ---------------------------------------------------------------------------

  /** The operators of Filter; any other operator string is OtherOperator. */
  datatype Operator =
    | Equal | NotEqual | LessThan | LessOrEqual | GreaterThan | GreaterOrEqual
    | Contains | StartsWith | EndsWith | In | NotIn
    | OtherOperator(text: string)

  predicate IsOrdering(op: Operator) {
    op.LessThan? || op.LessOrEqual? || op.GreaterThan? || op.GreaterOrEqual?
  }

  /** The operators each of the four types accepts; a Series of any other type accepts all. */
  predicate Permitted(t: string, op: Operator) {
    match KindNamed(t)
    case None => true
    case Some(StringKind) => op in [Equal, NotEqual, Contains, StartsWith, EndsWith, In, NotIn]
    case Some(BoolKind) => op in [Equal, NotEqual]
    case Some(_) => op in [Equal, NotEqual, LessThan, LessOrEqual, GreaterThan, GreaterOrEqual, In, NotIn]
  }

  /** An ordering operator applied to two integral numbers. */
  predicate Holds(op: Operator, a: int, b: int)
    requires IsOrdering(op)
  {
    match op
    case LessThan => a < b
    case LessOrEqual => a <= b
    case GreaterThan => a > b
    case GreaterOrEqual => a >= b
  }

  predicate HasPrefix(s: string, p: string) {
    |p| <= |s| && s[..|p|] == p
  }

  predicate HasSuffix(s: string, p: string) {
    |p| <= |s| && s[|s| - |p|..] == p
  }

  /** strings.Contains: p occurs in s at some position. */
  predicate HasSubstring(s: string, p: string)
    decreases |s|
  {
    HasPrefix(s, p) || (s != [] && HasSubstring(s[1..], p))
  }

  /** slices.Contains over the items of a slice, with Go's `==` on interfaces. */
  predicate Member(items: seq<Any>, x: Any) {
    exists i :: 0 <= i < |items| && SameValue(items[i], x)
  }

  /**
    Filter's predicate on one element; None where Go panics on a failed type
    assertion (an ordering against a value that is neither int nor float64,
    a text operator against a non-string value). An ordering never selects
    an element whose Float is NaN, and compares Int when the value is an int.
   */
  function Test(e: Element, op: Operator, values: Any): Option<bool>
  {
    match op
    case Equal => Some(SameValue(Value(e), values))
    case NotEqual => Some(!SameValue(Value(e), values))
    case Contains => if values.Str? then Some(HasSubstring(Records(e), values.s)) else None
    case StartsWith => if values.Str? then Some(HasPrefix(Records(e), values.s)) else None
    case EndsWith => if values.Str? then Some(HasSuffix(Records(e), values.s)) else None
    case In => Some(Member(SliceItems(values), Value(e)))
    case NotIn => Some(!Member(SliceItems(values), Value(e)))
    case OtherOperator(_) => Some(false)
    case _ =>
      if Float(e).NaN? then Some(false)
      else if values.IntV? then Some(Holds(op, Int(e), values.i))
      else if values.FloatV? then Some(values.f.Num? && Holds(op, Float(e).n, values.f.n))
      else None
  }

  /**
    The predicate panics exactly for an ordering against a value that is
    neither int nor float64 (once the element's Float is a number), and for
    a text operator against a value that is not a string.
   */
  lemma TestPanics(e: Element, op: Operator, values: Any)
    ensures Test(e, op, values).None? <==>
      || (IsOrdering(op) && Float(e).Num? && !values.IntV? && !values.FloatV?)
      || ((op.Contains? || op.StartsWith? || op.EndsWith?) && !values.Str?)
  {
  }

  /** The positions whose element passes the predicate, ascending. */
  function Passing(es: seq<Element>, op: Operator, values: Any): seq<int>
  {
    Positions(es, e => Test(e, op, values) == Some(true))
  }

  function Matches(c: Column, op: Operator, values: Any): (r: seq<int>)
    ensures forall i :: 0 <= i < |r| ==> 0 <= r[i] < |c.elements| && Test(c.elements[r[i]], op, values) == Some(true)
    ensures forall p :: 0 <= p < |c.elements| && Test(c.elements[p], op, values) == Some(true) ==> p in r
    ensures forall i, j :: 0 <= i < j < |r| ==> r[i] < r[j]
  {
    Passing(c.elements, op, values)
  }

  /** The positions passing among the first i + 1 elements: those among the first i, then i if it passes. */
  lemma PassingStep(es: seq<Element>, op: Operator, values: Any, i: nat)
    requires i < |es|
    ensures Passing(es[..i + 1], op, values) ==
      Passing(es[..i], op, values) + (if Test(es[i], op, values) == Some(true) then [i] else [])
  {
    assert es[..i + 1][..i] == es[..i];
  }

  /** The passing positions are the one strictly ascending list of exactly the positions that pass. */
  lemma PassingIs(es: seq<Element>, op: Operator, values: Any, r: seq<int>)
    requires StrictlyAscending(r)
    requires forall x :: x in r <==> 0 <= x < |es| && Test(es[x], op, values) == Some(true)
    ensures Passing(es, op, values) == r
  {
    PositionsUnique(es, e => Test(e, op, values) == Some(true), r);
  }

  /** The checks Filter makes before it looks at any element (nil panics in the first one). */
  predicate FilterAdmits(c: Column, op: Operator, values: Any) {
    && !values.Nil?
    && (GoTypeName(values) == "[]" + c.t || GoTypeName(values) == c.t)
    && Permitted(c.t, op)
    && (op.In? || op.NotIn? ==> IsSlice(values))
  }

  /**
    Filter: the value's Go type must be the Series' type or a slice of it,
    the operator must suit the type, and in / not_in need a slice (each an
    error); the predicate may panic on an element; the passing positions
    go to SubSet, which panics when there are none.
   */
  function FilterOf(c: Column, op: Operator, values: Any): (r: Result<Column, Failure>)
    ensures values.Nil? ==> r == Err(Panic)
    ensures !values.Nil? && !FilterAdmits(c, op, values) ==> r == Err(Error)
  {
    if values.Nil? then Err(Panic)
    else
    var vt := GoTypeName(values);
    if !(vt == "[]" + c.t || vt == c.t) then Err(Error)
    else if !Permitted(c.t, op) then Err(Error)
    else if (op.In? || op.NotIn?) && !IsSlice(values) then Err(Error)
    else if exists i :: 0 <= i < |c.elements| && Test(c.elements[i], op, values).None? then Err(Panic)
    else SubSetOf(c, Matches(c, op, values))
  }

  /** FilterOf case by case: a failed check, a panicking element, or SubSet of the passing positions. */
  lemma FilterCases(c: Column, op: Operator, values: Any)
    ensures values.Nil? ==> FilterOf(c, op, values) == Err(Panic)
    ensures !values.Nil? && !FilterAdmits(c, op, values) ==> FilterOf(c, op, values) == Err(Error)
    ensures FilterAdmits(c, op, values) && (exists i :: 0 <= i < |c.elements| && Test(c.elements[i], op, values).None?) ==>
      FilterOf(c, op, values) == Err(Panic)
    ensures FilterAdmits(c, op, values) && (forall i :: 0 <= i < |c.elements| ==> Test(c.elements[i], op, values).Some?) ==>
      FilterOf(c, op, values) == SubSetOf(c, Matches(c, op, values))
  {
    if values.Nil? || !FilterAdmits(c, op, values) {
    } else if exists i :: 0 <= i < |c.elements| && Test(c.elements[i], op, values).None? {
      assert FilterOf(c, op, values) == Err(Panic);
    } else {
      assert FilterOf(c, op, values) == SubSetOf(c, Matches(c, op, values));
    }
  }

  /**
    Filter succeeds exactly when its checks pass, no element makes the
    predicate panic and at least one element passes; the result then holds
    exactly the passing elements, in order, indexed by their positions.
   */
  lemma FilterSelects(c: Column, op: Operator, values: Any)
    ensures FilterOf(c, op, values).Ok? <==>
      && FilterAdmits(c, op, values)
      && (forall i :: 0 <= i < |c.elements| ==> Test(c.elements[i], op, values).Some?)
      && Matches(c, op, values) != []
    ensures FilterOf(c, op, values).Ok? ==>
      && FilterOf(c, op, values).value.indexes == Matches(c, op, values)
      && FilterOf(c, op, values).value.name == c.name && FilterOf(c, op, values).value.t == c.t
      && |FilterOf(c, op, values).value.elements| == |Matches(c, op, values)|
      && forall i :: 0 <= i < |Matches(c, op, values)| ==>
           FilterOf(c, op, values).value.elements[i] == c.elements[Matches(c, op, values)[i]]
  {
    var r, m := FilterOf(c, op, values), Matches(c, op, values);
    FilterCases(c, op, values);
    if FilterAdmits(c, op, values) && (forall i :: 0 <= i < |c.elements| ==> Test(c.elements[i], op, values).Some?) {
      FilterSubSet(c, r, m);
    } else {
      assert r.Err?;
    }
  }

  /** SubSet of positions that are all in range succeeds exactly when there is at least one. */
  lemma FilterSubSet(c: Column, r: Result<Column, Failure>, m: seq<int>)
    requires r == SubSetOf(c, m) && forall i :: 0 <= i < |m| ==> 0 <= m[i] < |c.elements|
    ensures r.Ok? <==> m != []
    ensures r.Ok? ==>
      && r.value.indexes == m && r.value.name == c.name && r.value.t == c.t && |r.value.elements| == |m|
      && forall i :: 0 <= i < |m| ==> r.value.elements[i] == c.elements[m[i]]
  {
  }

  /** When the checks pass but no element passes, SubSet of nothing panics. */
  lemma FilterNothingPanics(c: Column, op: Operator, values: Any)
    requires FilterAdmits(c, op, values)
    requires forall i :: 0 <= i < |c.elements| ==> Test(c.elements[i], op, values) == Some(false)
    ensures FilterOf(c, op, values) == Err(Panic)
  {
  }

  /** Every missing value reads as a NaN float64. */
  lemma MissingIsNaN(e: Element)
    requires IsNaN(e)
    ensures Float(e).NaN?
  {
  }

  /** An ordering never selects a missing element. */
  lemma FilterOrderingSkipsMissing(c: Column, op: Operator, values: Any)
    requires IsOrdering(op) && FilterOf(c, op, values).Ok?
    ensures forall i :: 0 <= i < |FilterOf(c, op, values).value.elements| ==>
      !IsNaN(FilterOf(c, op, values).value.elements[i])
  {
    FilterSelects(c, op, values);
    var r := FilterOf(c, op, values).value;
    var m := Matches(c, op, values);
    forall i | 0 <= i < |r.elements| ensures !IsNaN(r.elements[i]) {
      assert r.elements[i] == c.elements[m[i]];
      if IsNaN(r.elements[i]) {
        MissingIsNaN(r.elements[i]);
      }
    }
  }

  /** == and != split the positions: each element lands in exactly one of the two results. */
  lemma FilterEqualSplits(c: Column, values: Any)
    requires FilterOf(c, Equal, values).Ok? && FilterOf(c, NotEqual, values).Ok?
    ensures forall p :: 0 <= p < |c.elements| ==>
      (p in FilterOf(c, Equal, values).value.indexes <==> p !in FilterOf(c, NotEqual, values).value.indexes)
  {
    FilterSelects(c, Equal, values);
    FilterSelects(c, NotEqual, values);
    var eq, ne := Matches(c, Equal, values), Matches(c, NotEqual, values);
    forall p | 0 <= p < |c.elements| ensures p in eq <==> p !in ne {
      if p in eq {
        var i :| 0 <= i < |eq| && eq[i] == p;
      }
    }
  }

  // ---------------------------------------------------------------------------
  // The Series object
  // ---------------------------------------------------------------------------

  /** A Series whose fields its methods update in place. */
  class Series {
    var name: string
    var elements: seq<Element>
    var t: string
    var indexes: seq<int>

    /** The Series as a value. */
    function Value(): Column
      reads this
    {
      Column(name, elements, t, indexes)
    }

    /** A Series literal with the given fields. */
    constructor (c: Column)
      ensures Value() == c
    {
      name, elements, t, indexes := c.name, c.elements, c.t, c.indexes;
    }

    /** NewSeries: a new Series as NewSeriesOf describes it, or its error. */
    static method NewSeries(values: Option<Any>, dType: string, name: string) returns (r: Result<Series, Failure>)
      requires values.Some? ==> IsTypedSlice(values.value)
      ensures r.Ok? <==> NewSeriesOf(values, dType, name).Ok?
      ensures r.Ok? ==> fresh(r.value) && r.value.Value() == NewSeriesOf(values, dType, name).value
      ensures r.Err? ==> r.error == NewSeriesOf(values, dType, name).error
    {
      var s := new Series(Column(name, [], dType, []));
      if values.None? {
        return Ok(s);
      }
      if GoTypeName(values.value) != "[]" + dType {
        return Err(Error);
      }
      var err := s.Append(values.value);
      if err.Some? {
        return Err(err.value);
      }
      return Ok(s);
    }

    /** LoadRecords: the elements set one by one from the texts, then InitIndex. */
    static method LoadRecords(values: seq<string>, t: string, name: string) returns (r: Option<Series>)
      ensures r.Some? <==> LoadRecordsOf(values, t, name).Some?
      ensures r.Some? ==> fresh(r.value) && r.value.Value() == LoadRecordsOf(values, t, name).value
    {
      var z := NewElements(t, |values|);
      if z.None? {
        return None;
      }
      var ns := new Series(Column(name, z.value, t, []));
      var i := 0;
      while i < |values|
        invariant 0 <= i <= |values| && |ns.elements| == |values|
        invariant ns.name == name && ns.t == t
        invariant forall j :: 0 <= j < i ==> ns.elements[j] == Set(z.value[j], Str(values[j])).value
        invariant forall j :: i <= j < |values| ==> ns.elements[j] == z.value[j]
      {
        ns.elements := ns.elements[i := Set(ns.elements[i], Str(values[i])).value];
        i := i + 1;
      }
      ns.InitIndex();
      return Some(ns);
    }

    /** InitIndex: the indexes become 0 .. Len()-1; nothing else changes. */
    method InitIndex()
      modifies this
      ensures Value() == old(Value()).(indexes := Range(|old(elements)|))
    {
      var idx: seq<int> := [];
      var i := 0;
      while i < |elements|
        invariant 0 <= i <= |elements|
        invariant idx == Range(i)
      {
        idx := idx + [i];
        i := i + 1;
      }
      indexes := idx;
    }

    /**
      Append: err is the panic at a nil value or the error at a value of an
      unsupported type; the new state is the one AppendOf describes.
     */
    method Append(values: Any) returns (err: Option<Failure>)
      modifies this
      ensures (Value(), err) == AppendOf(old(Value()), values)
      decreases Depth(values), 0
    {
      if values.Nil? {
        return Some(Panic);
      }
      if IsSlice(values) {
        SliceDepth(values);
        err := AppendEach(SliceItems(values));
      } else {
        match Appended(values)
        case None =>
          err := Some(Error);
        case Some(x) =>
          elements := elements + [x];
          InitIndex();
          err := None;
      }
    }

    /** The loop of Append over the items of a slice: each is appended in turn, stopping at the first failure. */
    method AppendEach(items: seq<Any>) returns (err: Option<Failure>)
      modifies this
      ensures (Value(), err) == AppendItems(old(Value()), items)
      decreases MaxDepth(items), 1
    {
      var i := 0;
      while i < |items|
        invariant 0 <= i <= |items|
        invariant AppendItems(old(Value()), items) == AppendItems(Value(), items[i..])
      {
        assert items[i..][0] == items[i] && items[i..][1..] == items[i + 1..];
        err := Append(items[i]);
        if err.Some? {
          return;
        }
        i := i + 1;
      }
      InitIndex();
      err := None;
    }

    /**
      Concat: the other Series (a copy) converted to this type, its elements
      appended and the indexes reset; a failed conversion changes nothing and
      is returned.
     */
    method Concat(x: Column) returns (err: Option<Failure>)
      modifies this
      ensures err.None? <==> ConcatOf(old(Value()), x).Ok?
      ensures err.None? ==> Value() == ConcatOf(old(Value()), x).value
      ensures err.Some? ==> err.value == ConcatOf(old(Value()), x).error && Value() == old(Value())
    {
      var other := new Series(x);
      err := other.SetType(t);
      if err.Some? {
        return;
      }
      elements := elements + other.elements;
      InitIndex();
    }

    /** Format: every element updated, in place, from f applied to its position and itself. */
    method Format(f: (int, Element) -> Element)
      modifies this
      ensures Value() == FormatOf(old(Value()), f)
    {
      var i := 0;
      while i < |elements|
        invariant 0 <= i <= |elements| && |elements| == |old(elements)|
        invariant name == old(name) && t == old(t) && indexes == old(indexes)
        invariant forall j :: 0 <= j < i ==> elements[j] == Update(old(elements)[j], f(j, old(elements)[j]))
        invariant forall j :: i <= j < |elements| ==> elements[j] == old(elements)[j]
      {
        elements := elements[i := Update(elements[i], f(i, elements[i]))];
        i := i + 1;
      }
    }

    /**
      SetType: a new Series of type t' appends this one's readings as t' and
      then replaces it; the same type does nothing, and an unknown type or a
      failed Append is an error that changes nothing.
     */
    method SetType(t': string) returns (err: Option<Failure>)
      modifies this
      ensures err.None? <==> SetTypeOf(old(Value()), t').Ok?
      ensures err.None? ==> Value() == SetTypeOf(old(Value()), t').value
      ensures err.Some? ==> err.value == SetTypeOf(old(Value()), t').error && Value() == old(Value())
    {
      if t == t' {
        return None;
      }
      var kind := KindNamed(t');
      if kind.None? {
        return Some(Error);
      }
      var values: Any;
      match kind.value {
        case StringKind =>
          var xs := Records();
          values := Strs(xs);
        case IntKind =>
          var xs := Int();
          values := Ints(xs);
        case FloatKind =>
          var xs := Float();
          values := Floats(xs);
        case BoolKind =>
          var xs := Bool();
          values := Bools(xs);
      }
      assert values == Readings(kind.value, elements);
      var ns := new Series(Column(name, [], t', indexes));
      err := ns.Append(values);
      if err.Some? {
        return;
      }
      name, elements, t, indexes := ns.name, ns.elements, ns.t, ns.indexes;
      return None;
    }

    /** slices.MinFunc over keys[lo..] followed by slices.Index: the position of the running minimum. */
    static method MinIndex(keys: array<Key>, lo: nat, reverse: bool) returns (j: nat)
      requires lo < keys.Length
      ensures j == MinAt(keys[..], lo, keys.Length, reverse)
    {
      j := lo;
      var h := lo + 1;
      while h < keys.Length
        invariant lo < h <= keys.Length
        invariant j == MinAt(keys[..], lo, h, reverse)
      {
        if Before(keys[h], keys[j], reverse) {
          j := h;
        }
        h := h + 1;
      }
    }

    /**
      SortIndex: the keys of a copy of the elements and a clone of the
      indexes, sorted together by selection; None where Go panics.
     */
    method SortIndex(reverse: bool) returns (r: Option<seq<int>>)
      ensures r == SortIndexOf(Value(), reverse)
    {
      var n := |elements|;
      if n == 0 {
        return Some(indexes);
      }
      var kind := KindNamed(t);
      if kind.None? {
        return None;
      }
      var k := kind.value;
      if k == BoolKind {
        if n >= 2 || |indexes| < 1 {
          return None;
        }
        return Some(indexes);
      }
      var ks, ixs := SortKeys(k, elements), indexes;
      var keys := new Key[n](i requires 0 <= i < n => ks[i]);
      var idx := new int[|ixs|](i requires 0 <= i < |ixs| => ixs[i]);
      assert keys[..] == ks && idx[..] == ixs;
      var ok := SelectionSort(keys, idx, reverse);
      if !ok {
        return None;
      }
      return Some(idx[..]);
    }

    /**
      The loop of SortIndex: position i receives the key MinFunc picks among
      keys[i..], and the index array is swapped along with the keys; false
      where Go reads past the end of the index array.
     */
    static method SelectionSort(keys: array<Key>, idx: array<int>, reverse: bool) returns (ok: bool)
      modifies keys, idx
      ensures ok <==> keys.Length <= idx.Length
      ensures ok ==> idx[..] == SelectFrom(old(keys[..]), old(idx[..]), 0, reverse).1
    {
      var n := keys.Length;
      ghost var ks, ixs := keys[..], idx[..];
      var i := 0;
      while i < n
        invariant 0 <= i <= n
        invariant n <= idx.Length ==> SelectFrom(keys[..], idx[..], i, reverse) == SelectFrom(ks, ixs, 0, reverse)
        invariant idx.Length < n ==> i <= idx.Length
      {
        var j := MinIndex(keys, i, reverse);
        if i >= idx.Length || j >= idx.Length {
          return false;
        }
        ghost var k0, i0 := keys[..], idx[..];
        keys[i], keys[j] := keys[j], keys[i];
        idx[i], idx[j] := idx[j], idx[i];
        assert keys[..] == Swap(k0, i, j) && idx[..] == Swap(i0, i, j);
        i := i + 1;
      }
      return true;
    }

    /** HasNaN: whether some element is missing. */
    method HasNaN() returns (b: bool)
      ensures b <==> exists i :: 0 <= i < |elements| && IsNaN(elements[i])
    {
      var i := 0;
      while i < |elements|
        invariant 0 <= i <= |elements|
        invariant forall j :: 0 <= j < i ==> !IsNaN(elements[j])
      {
        if IsNaN(elements[i]) {
          return true;
        }
        i := i + 1;
      }
      return false;
    }

    /** Copy: a new Series with fresh elements of its type, updated from the old ones. */
    method Copy() returns (r: Option<Series>)
      ensures r.Some? <==> CopyOf(Value()).Some?
      ensures r.Some? ==> fresh(r.value) && r.value.Value() == CopyOf(Value()).value
    {
      var z := NewElements(t, |elements|);
      if z.None? {
        return None;
      }
      var es := z.value;
      var i := 0;
      while i < |es|
        invariant 0 <= i <= |es| && |es| == |elements|
        invariant forall j :: 0 <= j < i ==> es[j] == Update(z.value[j], elements[j])
        invariant forall j :: i <= j < |es| ==> es[j] == z.value[j]
      {
        es := es[i := Update(es[i], elements[i])];
        i := i + 1;
      }
      var ns := new Series(Column(name, es, t, indexes));
      return Some(ns);
    }

    /** SubSet: a new Series of copies of the requested elements, or SubSetOf's failure. */
    method SubSet(idx: seq<int>) returns (r: Result<Series, Failure>)
      ensures r.Ok? <==> SubSetOf(Value(), idx).Ok?
      ensures r.Ok? ==> fresh(r.value) && r.value.Value() == SubSetOf(Value(), idx).value
      ensures r.Err? ==> r.error == SubSetOf(Value(), idx).error
    {
      var m := Max(idx);
      if m.None? {
        return Err(Panic);
      }
      if m.value >= |elements| {
        return Err(Error);
      }
      forall i | 0 <= i < |idx| ensures idx[i] < |elements| {
        assert idx[i] in idx;
      }
      var es: seq<Element> := [];
      var i := 0;
      while i < |idx|
        invariant 0 <= i <= |idx| && |es| == i
        invariant forall j :: 0 <= j < i ==> 0 <= idx[j] < |elements| && es[j] == elements[idx[j]]
      {
        if idx[i] < 0 {
          return Err(Panic);
        }
        es := es + [elements[idx[i]]];
        i := i + 1;
      }
      var ns := new Series(Column(name, es, t, idx));
      return Ok(ns);
    }

    /** Drop: a copy of the Series with the requested positions deleted highest first, each once. */
    method Drop(idx: seq<int>) returns (r: Option<Series>)
      ensures r.Some? <==> DropOf(Value(), idx).Some?
      ensures r.Some? ==> fresh(r.value) && r.value.Value() == DropOf(Value(), idx).value
    {
      var copy := Copy();
      if copy.None? {
        return None;
      }
      var ns := copy.value;
      var order := DropOrder(idx);
      var es, ok := DeleteInTurn(ns.elements, order);
      if !ok {
        return None;
      }
      ghost var c := ns.Value();
      ns.elements := es;
      assert ns.Value() == c.(elements := es);
      return Some(ns);
    }

    /** Drop's loop: each position of `order` deleted in turn, stopping at the first that is out of range. */
    static method DeleteInTurn(s: seq<Element>, order: seq<int>) returns (es: seq<Element>, ok: bool)
      ensures ok == DeleteEach(s, order).1
      ensures ok ==> es == DeleteEach(s, order).0
    {
      es := s;
      var i := 0;
      while i < |order|
        invariant 0 <= i <= |order|
        invariant DeleteEach(s, order) == DeleteEach(es, order[i..])
      {
        var d := Delete(es, order[i]);
        if d.None? {
          return es, false;
        }
        assert order[i..][1..] == order[i + 1..];
        es := d.value;
        i := i + 1;
      }
      return es, true;
    }

    /**
      Filter: the type, whitelist and slice checks, then a scan for the
      positions whose element passes (stopping at the first panic), then
      SubSet of those positions.
     */
    method Filter(op: Operator, values: Any) returns (r: Result<Series, Failure>)
      ensures r.Ok? <==> FilterOf(Value(), op, values).Ok?
      ensures r.Ok? ==> fresh(r.value) && r.value.Value() == FilterOf(Value(), op, values).value
      ensures r.Err? ==> r.error == FilterOf(Value(), op, values).error
    {
      FilterCases(Value(), op, values);
      if values.Nil? {
        return Err(Panic);
      }
      var vt := GoTypeName(values);
      if !(vt == "[]" + t || vt == t) || !Permitted(t, op) || ((op.In? || op.NotIn?) && !IsSlice(values)) {
        return Err(Error);
      }
      var positions := Scan(elements, op, values);
      if positions.None? {
        return Err(Panic);
      }
      r := SubSet(positions.value);
    }

    /** data.Filter with Filter's predicate: the passing positions, or None at the first element that panics. */
    static method Scan(es: seq<Element>, op: Operator, values: Any) returns (r: Option<seq<int>>)
      ensures r.None? <==> exists i :: 0 <= i < |es| && Test(es[i], op, values).None?
      ensures r.Some? ==> r.value == Passing(es, op, values)
    {
      var test := e => Test(e, op, values);
      r := ScanWith(es, test);
      if r.Some? {
        PassingIs(es, op, values, r.value);
      }
    }

    /**
      data.Filter: the positions whose element passes `test`, ascending,
      or None at the first element on which `test` panics.
     */
    static method ScanWith(es: seq<Element>, test: Element -> Option<bool>) returns (r: Option<seq<int>>)
      ensures r.None? <==> exists i :: 0 <= i < |es| && test(es[i]).None?
      ensures r.Some? ==> StrictlyAscending(r.value)
      ensures r.Some? ==> forall x :: x in r.value <==> 0 <= x < |es| && test(es[x]) == Some(true)
    {
      var positions: seq<int> := [];
      for i := 0 to |es|
        invariant forall j :: 0 <= j < i ==> test(es[j]).Some?
        invariant StrictlyAscending(positions) && forall k :: 0 <= k < |positions| ==> positions[k] < i
        invariant forall x :: x in positions <==> 0 <= x < i && test(es[x]) == Some(true)
      {
        var passes := test(es[i]);
        if passes.None? {
          return None;
        }
        if passes.value {
          positions := positions + [i];
        }
      }
      return Some(positions);
    }

    /** Records, Int, Float, Bool and Any: one reader applied to every element, collected in order. */
    method Records() returns (xs: seq<string>)
      ensures xs == RecordsOf(Value())
    {
      xs := [];
      var i := 0;
      while i < |elements|
        invariant 0 <= i <= |elements| && xs == RecordsOf(Value())[..i]
      {
        xs := xs + [Elements.Records(elements[i])];
        i := i + 1;
      }
    }

    method Int() returns (xs: seq<Int64>)
      ensures xs == IntsOf(Value())
    {
      xs := [];
      var i := 0;
      while i < |elements|
        invariant 0 <= i <= |elements| && xs == IntsOf(Value())[..i]
      {
        xs := xs + [Elements.Int(elements[i])];
        i := i + 1;
      }
    }

    method Float() returns (xs: seq<Float64>)
      ensures xs == FloatsOf(Value())
    {
      xs := [];
      var i := 0;
      while i < |elements|
        invariant 0 <= i <= |elements| && xs == FloatsOf(Value())[..i]
      {
        xs := xs + [Elements.Float(elements[i])];
        i := i + 1;
      }
    }

    method Bool() returns (xs: seq<bool>)
      ensures xs == BoolsOf(Value())
    {
      xs := [];
      var i := 0;
      while i < |elements|
        invariant 0 <= i <= |elements| && xs == BoolsOf(Value())[..i]
      {
        xs := xs + [Elements.Bool(elements[i])];
        i := i + 1;
      }
    }

    method Any() returns (xs: seq<Elements.Any>)
      ensures xs == AnysOf(Value())
    {
      xs := [];
      var i := 0;
      while i < |elements|
        invariant 0 <= i <= |elements| && xs == AnysOf(Value())[..i]
      {
        xs := xs + [Elements.Value(elements[i])];
        i := i + 1;
      }
    }
  }
}
