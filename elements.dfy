/**
  The element layer of the series package (pandas/series/element.go).

  An element is one cell of a column, of one of four kinds: text, int, float64
  or bool. Each kind but bool has a missing-value sentinel ("NaN" for text,
  the smallest int for int, NaN for float64). `Set` overwrites an element
  through a coercion table from the four Go scalar types into the element's own
  kind; `Records`, `Int`, `Float` and `Bool` read any element back as one of
  the four types; `update` re-derives an element through those readers.

  An element is a value here: `Set` and `Update` return the receiver's new
  value. The typed lists (stringElements and its three siblings) rebuild their
  backing slice in place, so they are one class, `ElementList`, whose methods
  modify its `items` field.

  Float64 holds the integral float64 values and NaN; see Float64 below.
 */
module Elements {
  import opened Wrappers
  import opened Strconv
  import Slices
  import opened Library

  // ---------------------------------------------------------------------------
  // Kinds, values and elements
  // ---------------------------------------------------------------------------

  /** The four element kinds. */
  datatype Kind = StringKind | IntKind | FloatKind | BoolKind

  /** The Go type name of a kind, as the Series `Type` constants spell it. */
  function TypeName(k: Kind): string {
    match k
    case StringKind => "string"
    case IntKind => "int"
    case FloatKind => "float64"
    case BoolKind => "bool"
  }

  /** A float64 that is either NaN or an integral number. */
  datatype Float64 = NaN | Num(n: int)

  /** One cell: the four Go element types of the package. */
  datatype Element =
    | StringElem(s: string)
    | IntElem(i: Int64)
    | FloatElem(f: Float64)
    | BoolElem(b: bool)

  /**
    A Go `any` as the table engine inspects it: one of the four scalar types,
    an Element, a slice of one of the four types or of `any`, a value of
    some other type, named by its Go type name, or the untyped nil.
   */
  datatype Any =
    | Str(s: string)
    | IntV(i: Int64)
    | FloatV(f: Float64)
    | BoolV(b: bool)
    | Elem(e: Element)
    | Strs(ss: seq<string>)
    | Ints(ns: seq<Int64>)
    | Floats(fs: seq<Float64>)
    | Bools(bs: seq<bool>)
    | Anys(items: seq<Any>)
    | Other(typeName: string)
    | Nil

  /** The element's own kind: dType. */
  function KindOf(e: Element): Kind {
    match e
    case StringElem(_) => StringKind
    case IntElem(_) => IntKind
    case FloatElem(_) => FloatKind
    case BoolElem(_) => BoolKind
  }

  /** The element `new(...)` creates for a kind: the zero value of its Go type. */
  function Zero(k: Kind): (e: Element)
    ensures KindOf(e) == k
  {
    match k
    case StringKind => StringElem("")
    case IntKind => IntElem(0)
    case FloatKind => FloatElem(Num(0))
    case BoolKind => BoolElem(false)
  }

  /** One of Go's string, int, float64 and bool. */
  predicate IsScalar(v: Any) {
    v.Str? || v.IntV? || v.FloatV? || v.BoolV?
  }

  predicate IsSlice(v: Any) {
    v.Strs? || v.Ints? || v.Floats? || v.Bools? || v.Anys?
  }

  /** The items of a slice, each as an `any`, in order (empty for a non-slice). */
  function SliceItems(v: Any): (r: seq<Any>)
    ensures IsSlice(v) ==> |r| == SliceLen(v)
  {
    match v
    case Strs(ss) => seq(|ss|, i requires 0 <= i < |ss| => Str(ss[i]))
    case Ints(ns) => seq(|ns|, i requires 0 <= i < |ns| => IntV(ns[i]))
    case Floats(fs) => seq(|fs|, i requires 0 <= i < |fs| => FloatV(fs[i]))
    case Bools(bs) => seq(|bs|, i requires 0 <= i < |bs| => BoolV(bs[i]))
    case Anys(items) => items
    case _ => []
  }

  function SliceLen(v: Any): nat {
    match v
    case Strs(ss) => |ss|
    case Ints(ns) => |ns|
    case Floats(fs) => |fs|
    case Bools(bs) => |bs|
    case Anys(items) => |items|
    case _ => 0
  }

  /** reflect.TypeOf(v).String(); for nil, reflect.TypeOf gives no type and calling a method on it panics. */
  function GoTypeName(v: Any): string
    requires !v.Nil?
  {
    match v
    case Str(_) => "string"
    case IntV(_) => "int"
    case FloatV(_) => "float64"
    case BoolV(_) => "bool"
    case Elem(e) => "*series." + ElementTypeName(KindOf(e))
    case Strs(_) => "[]string"
    case Ints(_) => "[]int"
    case Floats(_) => "[]float64"
    case Bools(_) => "[]bool"
    case Anys(_) => "[]interface {}"
    case Other(t) => t
  }

  function ElementTypeName(k: Kind): string {
    match k
    case StringKind => "stringElement"
    case IntKind => "intElement"
    case FloatKind => "floatElement"
    case BoolKind => "boolElement"
  }

  /**
    Go's `==` between two interface values holding scalars: the dynamic types
    must be the same and the values equal, and NaN equals nothing.
   */
  predicate SameValue(a: Any, b: Any) {
    match (a, b)
    case (Str(x), Str(y)) => x == y
    case (IntV(x), IntV(y)) => x == y
    case (FloatV(x), FloatV(y)) => x.Num? && x == y
    case (BoolV(x), BoolV(y)) => x == y
    case _ => false
  }

  // ---------------------------------------------------------------------------
  // The float64 conversions, on integral values
  // ---------------------------------------------------------------------------

  /** strconv.FormatFloat(f, 'f', 6, 64). */
  function FormatFixed6(f: Float64): string {
    match f
    case NaN => "NaN"
    case Num(n) => Itoa(n) + ".000000"
  }

  /**
    strconv.FormatFloat(f, 'f', -1, 64): the decimal text with the fewest
    significant digits that reads back as f, padded with zeros to the units
    (Library.Shortest). Up to 2^53 that is the value's own decimal text;
    above it, 2^63 is spelled 9223372036854776000. A Num that is not a
    float64 is first rounded to the nearest one.
   */
  function FormatShortest(f: Float64): string {
    match f
    case NaN => "NaN"
    case Num(n) => Itoa(ShortestValue(n))
  }

  /** A Float64 that is a float64: NaN, or an integer that rounding leaves alone and that is below 2^1024 in magnitude. */
  predicate IsFloat64(f: Float64) {
    f.NaN? || (RoundToDouble(f.n) == f.n && -(DoubleOverflowBound as int) < f.n < DoubleOverflowBound)
  }

  /** ASCII lower case; strings.ToLower agrees with it on the texts the element layer compares with. */
  function Lower(s: string): (r: string)
    ensures |r| == |s|
  {
    seq(|s|, i requires 0 <= i < |s| => if 'A' <= s[i] <= 'Z' then (s[i] as int + 32) as char else s[i])
  }

  /** The position of the first '.', or |s| when there is none. */
  function DotAt(s: string): (k: nat)
    ensures k <= |s| && (k < |s| ==> s[k] == '.')
    ensures forall i :: 0 <= i < k ==> s[i] != '.'
  {
    if s == [] then 0
    else if s[0] == '.' then 0
    else 1 + DotAt(s[1..])
  }

  predicate AllZeros(s: string) {
    forall i :: 0 <= i < |s| ==> s[i] == '0'
  }

  /** 2^1024: a magnitude that rounds to it or beyond is out of the float64 range. */
  const DoubleOverflowBound: nat := 0x10000_0000_0000_0000_0000_0000_0000_0000_0000_0000_0000_0000_0000_0000_0000_0000_0000_0000_0000_0000_0000_0000_0000_0000_0000_0000_0000_0000_0000_0000_0000_0000_0000_0000_0000_0000_0000_0000_0000_0000_0000_0000_0000_0000_0000_0000_0000_0000_0000_0000_0000_0000_0000_0000_0000_0000_0000_0000_0000_0000_0000_0000_0000_0000

  /**
    strconv.ParseFloat on the texts whose value is integral: "nan" in any case,
    or an optional sign, decimal digits and an optional '.' followed by zeros,
    with at least one digit. The value is rounded to the nearest float64; one
    out of range is an error (ErrRange). None is the error result.
   */
  function ParseFloat(s: string): (r: Option<Float64>)
    ensures Lower(s) == "nan" ==> r == Some(NaN)
  {
    if Lower(s) == "nan" then Some(NaN)
    else
      var signed := |s| > 0 && (s[0] == '-' || s[0] == '+');
      var body := if signed then s[1..] else s;
      var k := DotAt(body);
      var whole, frac := body[..k], if k < |body| then body[k + 1..] else "";
      if (whole == [] && frac == []) || !AllDigits(whole) || !AllZeros(frac) then None
      else
        var v := if whole == [] then 0 else DigitsValue(whole);
        var m := RoundMagnitude(v);
        if m >= DoubleOverflowBound then None
        else Some(Num(if |s| > 0 && s[0] == '-' then -(m as int) else m))
  }

  /** A text that does not start with 'n' or 'N' is not "nan" in any case. */
  lemma NotNanText(s: string)
    requires s != [] && s[0] != 'n' && s[0] != 'N'
    ensures Lower(s) != "nan"
  {
    assert Lower(s)[0] != 'n';
  }

  /** A sign ("" or "-") before decimal digits parses as their value rounded to a float64, unless that overflows. */
  lemma ParseFloatOfDigits(sign: string, body: string)
    requires sign == "" || sign == "-"
    requires body != [] && AllDigits(body)
    requires RoundMagnitude(DigitsValue(body)) < DoubleOverflowBound
    ensures var m := RoundMagnitude(DigitsValue(body));
      ParseFloat(sign + body) == Some(Num(if sign == "-" then -(m as int) else m))
  {
    var s := sign + body;
    assert s[0] == '-' || s[0] == body[0];
    NotNanText(s);
    assert (if |s| > 0 && (s[0] == '-' || s[0] == '+') then s[1..] else s) == body;
    assert DotAt(body) == |body|;
    assert body[..|body|] == body;
  }

  /** The decimal text of an integer parses as that integer rounded to a float64, unless that overflows. */
  lemma ParseFloatOfItoa(x: int)
    requires RoundMagnitude(if x < 0 then -x else x) < DoubleOverflowBound
    ensures ParseFloat(Itoa(x)) == Some(Num(RoundToDouble(x)))
  {
    var a: nat := if x < 0 then -x else x;
    DigitsOfNatText(a);
    assert Itoa(x) == (if x < 0 then "-" else "") + NatText(a);
    ParseFloatOfDigits(if x < 0 then "-" else "", NatText(a));
  }

  /** FormatShortest's text of a float64 parses back as that float64. */
  lemma FormatShortestRoundTrip(f: Float64)
    ensures IsFloat64(f) ==> ParseFloat(FormatShortest(f)) == Some(f)
  {
    if f.NaN? {
      assert Lower("NaN") == "nan";
    } else if IsFloat64(f) {
      var x := ShortestValue(f.n);
      ShortestValueRoundsBack(f.n);
      assert RoundMagnitude(if x < 0 then -x else x) < DoubleOverflowBound;
      ParseFloatOfItoa(x);
    }
  }

  /** Up to 2^53 in magnitude the shortest text is the integer's own decimal text. */
  lemma FormatShortestExact(n: int)
    requires -(ExactDoubleBound as int) <= n <= ExactDoubleBound
    ensures FormatShortest(Num(n)) == Itoa(n)
  {
    RoundExact(n);
    ShortestExact(if n < 0 then -n else n);
  }

  /**
    Above 2^53 the shortest text drops digits: 2^63 (the largest int
    converted to float64) renders as 9223372036854776000 and -2^63 as
    -9223372036854776000, and 2^60 as 1152921504606847000.
   */
  lemma FormatShortestAboveExactRange()
    ensures FormatShortest(Num(0x8000_0000_0000_0000)) == Itoa(9223372036854776000)
    ensures FormatShortest(Num(-0x8000_0000_0000_0000)) == Itoa(-9223372036854776000)
    ensures FormatShortest(Num(0x1000_0000_0000_0000)) == Itoa(1152921504606847000)
  {
    UlpsNearTwoToThe63();
    assert RoundMagnitude(0x8000_0000_0000_0000) == 0x8000_0000_0000_0000;
    ShortestOfTwoToThe63();
    UlpsNearTwoToThe60();
    assert RoundMagnitude(0x1000_0000_0000_0000) == 0x1000_0000_0000_0000;
    ShortestOfTwoToThe60();
  }

  /** Go's float64-to-int conversion on amd64: NaN and out-of-range values give the smallest int. */
  function Truncate(f: Float64): Int64 {
    match f
    case NaN => MinInt
    case Num(n) => if MinInt <= n <= MaxInt then n else MinInt
  }

  // ---------------------------------------------------------------------------
  // Set: the coercion table
  // ---------------------------------------------------------------------------

  /** The texts stringElement.Set stores as the sentinel "NaN". */
  const NullTexts: seq<string> := ["", "NaN", "nan", "null", "Null"]

  /** A text that starts with neither 'N' nor 'n' is not a null text. */
  lemma NotNullText(s: string)
    requires s != [] && s[0] != 'N' && s[0] != 'n'
    ensures s !in NullTexts
  {
  }

  /** The texts that read as false. */
  const FalseTexts: seq<string> := ["false", "0", "F", "f"]

  /** stringElement.Set: the new text. */
  function SetString(value: Any): string {
    match value
    case Str(s) => if Slices.Contains(NullTexts, s) then "NaN" else s
    case IntV(i) => Itoa(i)
    case FloatV(f) => FormatFixed6(f)
    case BoolV(b) => if b then "true" else "false"
    case _ => "NaN"
  }

  /** intElement.Set: the new int. */
  function SetInt(value: Any): Int64 {
    match value
    case Str(s) => (match Atoi(s) case Some(i) => i case None => MinInt)
    case IntV(i) => i
    case FloatV(f) => Truncate(f)
    case BoolV(b) => if b then 1 else 0
    case _ => MinInt
  }

  /** floatElement.Set: the new float64. */
  function SetFloat(value: Any): Float64 {
    match value
    case Str(s) => (match ParseFloat(s) case Some(f) => f case None => NaN)
    case IntV(i) => Num(RoundToDouble(i))
    case FloatV(f) => f
    case BoolV(b) => Num(if b then 1 else 0)
    case _ => NaN
  }

  /**
    boolElement.Set exactly as written: `case int, float64: val == 0` compares
    the interface value with the untyped constant 0, which becomes an int, so
    a float64 never equals it and every float64 sets true. Anything other than
    the four scalar types panics (None).
   */
  function SetBoolAsWritten(value: Any): Option<bool> {
    match value
    case Str(s) => Some(!Slices.Contains(FalseTexts, s))
    case IntV(i) => Some(i != 0)
    case FloatV(_) => Some(true)
    case BoolV(b) => Some(b)
    case _ => None
  }

  /** boolElement.Set as intended: a numeric zero of either type sets false. */
  function SetBool(value: Any): Option<bool> {
    match value
    case Str(s) => Some(!Slices.Contains(FalseTexts, s))
    case IntV(i) => Some(i != 0)
    case FloatV(f) => Some(f != Num(0))
    case BoolV(b) => Some(b)
    case _ => None
  }

  /** Set: the receiver's new value; it keeps the receiver's kind, and only a bool receiver can panic (None). */
  function Set(e: Element, value: Any): (r: Option<Element>)
    ensures r.Some? ==> KindOf(r.value) == KindOf(e)
    ensures r.None? <==> e.BoolElem? && !IsScalar(value)
  {
    match e
    case StringElem(_) => Some(StringElem(SetString(value)))
    case IntElem(_) => Some(IntElem(SetInt(value)))
    case FloatElem(_) => Some(FloatElem(SetFloat(value)))
    case BoolElem(_) => match SetBool(value) case Some(b) => Some(BoolElem(b)) case None => None
  }

  // ---------------------------------------------------------------------------
  // The readers
  // ---------------------------------------------------------------------------

  /** isNaN: the kind's sentinel; a bool is never missing. */
  predicate IsNaN(e: Element) {
    match e
    case StringElem(s) => s == "NaN"
    case IntElem(i) => i == MinInt
    case FloatElem(f) => f.NaN?
    case BoolElem(_) => false
  }

  /**
    Records: the element as text. A text element gives its text; otherwise
    the text reads back through the parser of the element's own kind: Atoi
    for an int that is not the sentinel, ParseFloat for a float64, and the
    false texts exactly for false.
   */
  function Records(e: Element): (r: string)
    ensures e.StringElem? ==> r == e.s
    ensures e.IntElem? && !IsNaN(e) ==> Atoi(r) == Some(e.i)
    ensures e.FloatElem? && IsFloat64(e.f) ==> ParseFloat(r) == Some(e.f)
    ensures e.BoolElem? ==> (r in FalseTexts <==> !e.b)
  {
    match e
    case StringElem(s) => s
    case IntElem(i) => if i == MinInt then "NaN" else AtoiItoa(i); Itoa(i)
    case FloatElem(f) => FormatShortestRoundTrip(f); if f.NaN? then "NaN" else FormatShortest(f)
    case BoolElem(b) => if b then "true" else "false"
  }

  /** Int: the element as an int; text that does not parse reads as the sentinel. */
  function Int(e: Element): Int64 {
    match e
    case StringElem(s) =>
      if s == "NaN" then MinInt
      else (match Atoi(s) case Some(i) => i case None => MinInt)
    case IntElem(i) => i
    case FloatElem(f) => Truncate(f)
    case BoolElem(b) => if b then 1 else 0
  }

  /** Float: the element as a float64; the int sentinel reads as NaN. */
  function Float(e: Element): Float64 {
    match e
    case StringElem(s) =>
      if s == "NaN" then NaN
      else (match ParseFloat(s) case Some(f) => f case None => NaN)
    case IntElem(i) => if i == MinInt then NaN else Num(RoundToDouble(i))
    case FloatElem(f) => f
    case BoolElem(b) => Num(if b then 1 else 0)
  }

  /** Bool: text is false when its lower case is a false text; numbers are true when positive. */
  function Bool(e: Element): bool {
    match e
    case StringElem(s) => !Slices.Contains(FalseTexts, Lower(s))
    case IntElem(i) => i > 0
    case FloatElem(f) => f.Num? && f.n > 0
    case BoolElem(b) => b
  }

  /** Value: the element as the `any` of its own kind. */
  function Value(e: Element): (v: Any)
    ensures IsScalar(v)
  {
    match e
    case StringElem(_) => Str(Records(e))
    case IntElem(_) => IntV(Int(e))
    case FloatElem(_) => FloatV(Float(e))
    case BoolElem(_) => BoolV(Bool(e))
  }

  /** update: the receiver re-set from the reader of its own kind applied to src. */
  function Update(e: Element, src: Element): (r: Element)
    ensures KindOf(r) == KindOf(e)
  {
    match e
    case StringElem(_) => StringElem(SetString(Str(Records(src))))
    case IntElem(_) => IntElem(SetInt(IntV(Int(src))))
    case FloatElem(_) => FloatElem(SetFloat(FloatV(Float(src))))
    case BoolElem(_) => BoolElem(SetBool(BoolV(Bool(src))).value)
  }

  // ---------------------------------------------------------------------------
  // Properties of Set and the readers
  // ---------------------------------------------------------------------------

  /** A text element keeps every text but the null spellings, which become the sentinel. */
  lemma SetText(prior: Element, v: string)
    requires prior.StringElem?
    ensures var r := Set(prior, Str(v)).value;
      && (IsNaN(r) <==> v in NullTexts)
      && (v !in NullTexts ==> Records(r) == v)
  {
  }

  /** A text element stores an int as decimal text that reads back as the int, and a bool as text that reads back as the bool. */
  lemma SetTextFromScalars(prior: Element, i: Int64, b: bool)
    requires prior.StringElem?
    ensures Records(Set(prior, IntV(i)).value) == Itoa(i)
    ensures Int(Set(prior, IntV(i)).value) == i
    ensures Bool(Set(prior, BoolV(b)).value) == b
  {
    AtoiItoa(i);
    assert Itoa(i) != "NaN" by { assert Itoa(i)[0] != 'N'; }
    assert Lower("true") == "true" && Lower("false") == "false";
  }

  /** An int element reads unparsable text as the sentinel, reads decimal text back exactly, and stores true/false as 1/0. */
  lemma SetIntMeaning(prior: Element, s: string, i: Int64, b: bool)
    requires prior.IntElem?
    ensures Atoi(s).None? ==> IsNaN(Set(prior, Str(s)).value)
    ensures Set(prior, Str(Itoa(i))) == Some(IntElem(i))
    ensures Int(Set(prior, BoolV(b)).value) == (if b then 1 else 0)
    ensures Bool(Set(prior, BoolV(b)).value) == b
  {
    AtoiItoa(i);
  }

  /**
    A float element reads unparsable text as NaN, and "nan" in any case as
    NaN; it reads an int's decimal text as that int rounded to a float64,
    the same value Set stores for the int itself; and it stores true/false
    as 1/0.
   */
  lemma SetFloatMeaning(prior: Element, s: string, i: Int64, b: bool)
    requires prior.FloatElem?
    ensures ParseFloat(s).None? ==> Set(prior, Str(s)) == Some(FloatElem(NaN))
    ensures Lower(s) == "nan" ==> Set(prior, Str(s)) == Some(FloatElem(NaN))
    ensures Set(prior, Str(Itoa(i))) == Some(FloatElem(Num(RoundToDouble(i))))
    ensures Set(prior, Str(Itoa(i))) == Set(prior, IntV(i))
    ensures Set(prior, BoolV(b)) == Some(FloatElem(Num(if b then 1 else 0)))
  {
    RoundBound(if i < 0 then -(i as int) else i);
    ParseFloatOfItoa(i);
  }

  /**
    A bool element is set false exactly by the case-sensitive false texts, by
    int 0 and by float64 0; every other string, int or float64 sets it true.
   */
  lemma SetBoolMeaning(prior: Element, s: string, i: Int64, f: Float64)
    requires prior.BoolElem?
    ensures !Set(prior, Str(s)).value.b <==> s in FalseTexts
    ensures !Set(prior, IntV(i)).value.b <==> i == 0
    ensures !Set(prior, FloatV(f)).value.b <==> f == Num(0)
  {
  }

  /** The two Set tables for bool differ only at float64 zero. */
  lemma SetBoolAgreement(v: Any)
    ensures v != FloatV(Num(0)) ==> SetBoolAsWritten(v) == SetBool(v)
    ensures SetBoolAsWritten(FloatV(Num(0))) == Some(true) && SetBool(FloatV(Num(0))) == Some(false)
    ensures SetBoolAsWritten(IntV(0)) == Some(false)
  {
  }

  /** isNaN holds exactly when the element renders as "NaN". */
  lemma IsNaNRecords(e: Element)
    ensures IsNaN(e) <==> Records(e) == "NaN"
  {
    match e
    case IntElem(i) =>
      assert i != MinInt ==> Itoa(i) != "NaN" by { assert Itoa(i)[0] != 'N'; }
    case FloatElem(f) =>
      if f.Num? { assert FormatShortest(f)[0] != 'N'; }
    case _ =>
  }

  /** Int -> text -> Int: an int element copied into a text element reads back as the same int, sentinel included. */
  lemma IntTextRoundTrip(i: Int64, prior: Element)
    requires prior.StringElem?
    ensures Int(Update(prior, IntElem(i))) == i
  {
    if i != MinInt {
      AtoiItoa(i);
      assert |Itoa(i)| >= 1 && Itoa(i)[0] != 'N' && Itoa(i)[0] != 'n';
      NotNullText(Itoa(i));
    }
  }

  /** float64 -> text -> float64: a float64 copied into a text element reads back as the same float64, NaN included. */
  lemma FloatTextRoundTrip(f: Float64, prior: Element)
    requires prior.StringElem?
    ensures IsFloat64(f) ==> Float(Update(prior, FloatElem(f))) == f
  {
    var t := Records(FloatElem(f));
    if f.Num? && IsFloat64(f) {
      IsNaNRecords(FloatElem(f));
      assert |t| >= 1 && t[0] != 'N' && t[0] != 'n';
      NotNullText(t);
    }
  }

  /** The largest int stored in a float element becomes 2^63, which renders as 9223372036854776000. */
  lemma RecordsOfLargestInt(prior: Element)
    requires prior.FloatElem?
    ensures Set(prior, IntV(MaxInt)) == Some(FloatElem(Num(0x8000_0000_0000_0000)))
    ensures Records(Set(prior, IntV(MaxInt)).value) == Itoa(9223372036854776000)
  {
    RoundOfTwoToThe63MinusOne();
    FormatShortestAboveExactRange();
  }

  /**
    Int -> float64 -> Int: an int copied into a float element reads back as
    the same int while it is a float64 (up to 2^53 in magnitude); 2^53 + 1
    comes back as 2^53, and the largest int rounds up to 2^63, which is out
    of the int range and reads back as the smallest int.
   */
  lemma IntFloatRoundTrip(i: Int64, prior: Element)
    requires prior.FloatElem?
    ensures i != MinInt && -(ExactDoubleBound as int) <= i <= ExactDoubleBound ==> Int(Update(prior, IntElem(i))) == i
    ensures Int(Update(prior, IntElem(ExactDoubleBound + 1))) == ExactDoubleBound
    ensures Int(Update(prior, IntElem(MaxInt))) == MinInt
  {
    if i != MinInt && -(ExactDoubleBound as int) <= i <= ExactDoubleBound {
      RoundExact(i);
    }
    RoundAboveBound();
    var u := Ulp(MaxInt);
    assert u == 1024;
    assert RoundToDouble(MaxInt) == 0x8000_0000_0000_0000;
  }

  lemma {:induction false} NatTextZero(n: nat)
    ensures NatText(n) == "0" <==> n == 0
    decreases n
  {
    if n >= 10 {
      NatTextZero(n / 10);
      assert |NatText(n)| > 1;
    }
  }

  /**
    An int reads as true only when positive, but its decimal text reads as true
    whenever it is not zero: -1 is false as an int and true as text.
   */
  lemma BoolThroughText(i: Int64, prior: Element)
    requires prior.StringElem?
    ensures Bool(IntElem(i)) <==> i > 0
    ensures Bool(Update(prior, IntElem(i))) <==> i != 0
  {
    var t := Records(IntElem(i));
    var u := Update(prior, IntElem(i));
    if i == MinInt {
      assert u == StringElem("NaN");
      assert Lower("NaN") == "nan";
    } else {
      assert |Itoa(i)| >= 1 && Itoa(i)[0] != 'N' && Itoa(i)[0] != 'n';
      NotNullText(Itoa(i));
      assert u == StringElem(Itoa(i));
      DecimalFalseText(i);
    }
  }

  /** The decimal text of an integer is its own lower case, and it is a false text exactly for 0. */
  lemma DecimalFalseText(i: int)
    ensures Lower(Itoa(i)) == Itoa(i)
    ensures Itoa(i) in FalseTexts <==> i == 0
  {
    if i >= 0 {
      NatTextZero(i);
    }
    assert Itoa(i) == "0" <==> i == 0;
    assert Itoa(i)[0] != 'f' && Itoa(i)[0] != 'F';
  }

  /** Lower-casing makes the text reader accept "FALSE", which Set(bool) reads as true. */
  lemma BoolCaseFolding(prior: Element)
    requires prior.BoolElem?
    ensures !Bool(StringElem("FALSE"))
    ensures Set(prior, Str("FALSE")) == Some(BoolElem(true))
  {
    assert Lower("FALSE") == "false";
  }

  /** What Set can produce: a text element never holds one of the null spellings other than "NaN". */
  predicate WellFormed(e: Element) {
    e.StringElem? ==> e.s == "NaN" || e.s !in NullTexts
  }

  lemma SetWellFormed(e: Element, v: Any)
    requires Set(e, v).Some?
    ensures WellFormed(Set(e, v).value)
  {
  }

  /** update from itself changes nothing on what Set produces. */
  lemma UpdateSelf(e: Element)
    requires WellFormed(e)
    ensures Update(e, e) == e
  {
  }

  // ---------------------------------------------------------------------------
  // The typed lists: stringElements, intElements, floatElements, boolElements
  // ---------------------------------------------------------------------------

  /** The element `new(...).Set(v)` gives for a kind. */
  function Coerce(k: Kind, v: Any): Element
    requires IsScalar(v)
  {
    Set(Zero(k), v).value
  }

  /** Each scalar coerced in turn. */
  function CoerceAll(k: Kind, vs: seq<Any>): (r: seq<Element>)
    requires forall i :: 0 <= i < |vs| ==> IsScalar(vs[i])
    ensures |r| == |vs|
  {
    if vs == [] then [] else CoerceAll(k, vs[..|vs| - 1]) + [Coerce(k, vs[|vs| - 1])]
  }

  /** What a list's append accepts: a scalar of its own type, or a slice of it. */
  predicate Accepts(k: Kind, v: Any) {
    match k
    case StringKind => v.Str? || v.Strs?
    case IntKind => v.IntV? || v.Ints?
    case FloatKind => v.FloatV? || v.Floats?
    case BoolKind => v.BoolV? || v.Bools?
  }

  /** The scalars an accepted value contributes, in order. */
  function Contributed(v: Any): (r: seq<Any>)
    ensures forall i :: 0 <= i < |r| ==> IsScalar(r[i])
  {
    if IsScalar(v) then [v]
    else if v.Strs? || v.Ints? || v.Floats? || v.Bools? then SliceItems(v)
    else []
  }

  /** The length of the longest prefix of scalars. */
  function ScalarPrefix(vs: seq<Any>): (n: nat)
    ensures n <= |vs| && forall i :: 0 <= i < n ==> IsScalar(vs[i])
    ensures n < |vs| ==> !IsScalar(vs[n])
  {
    if vs == [] || !IsScalar(vs[0]) then 0 else 1 + ScalarPrefix(vs[1..])
  }

  /** The list after inserting the scalars vs one by one, the k-th at index + k. */
  function InsertedAll(s: seq<Element>, k: Kind, index: int, vs: seq<Any>): (r: seq<Element>)
    requires forall i :: 0 <= i < |vs| ==> IsScalar(vs[i])
    ensures |r| == |s| + |vs|
    decreases |vs|
  {
    if vs == [] then s
    else
      var n := |vs| - 1;
      Slices.Insert(InsertedAll(s, k, index, vs[..n]), index + n, [Coerce(k, vs[n])])
  }

  /** The list after popping the indexes of ds in turn, and whether no pop panicked. */
  function PopEach(s: seq<Element>, ds: seq<int>): (seq<Element>, bool)
    decreases |ds|
  {
    if ds == [] then (s, true)
    else
      match Slices.Pop(s, ds[0])
      case None => (s, false)
      case Some(p) => PopEach(p.0, ds[1..])
  }

  /** A typed list of elements of one kind. */
  class ElementList {
    const kind: Kind
    var items: seq<Element>

    ghost predicate Valid()
      reads this
    {
      forall i :: 0 <= i < |items| ==> KindOf(items[i]) == kind
    }

    constructor (kind: Kind)
      ensures this.kind == kind && items == [] && Valid()
    {
      this.kind := kind;
      items := [];
    }

    /** append: a scalar or slice of the list's own type is coerced and appended in order; anything else is an error. */
    method Append(values: Any) returns (r: Result<(), Failure>)
      requires Valid()
      modifies this
      ensures Valid()
      ensures r.Ok? <==> Accepts(kind, values)
      ensures r.Ok? ==> items == old(items) + CoerceAll(kind, Contributed(values))
      ensures r.Err? ==> items == old(items) && r.error == Error
    {
      if !Accepts(kind, values) {
        return Err(Error);
      }
      AppendScalars(Contributed(values));
      return Ok(());
    }

    /** The loop of append: each scalar coerced to the list's kind and appended, in order. */
    method AppendScalars(vs: seq<Any>)
      requires Valid() && forall i :: 0 <= i < |vs| ==> IsScalar(vs[i])
      modifies this
      ensures Valid()
      ensures items == old(items) + CoerceAll(kind, vs)
    {
      for j := 0 to |vs|
        invariant items == old(items) + CoerceAll(kind, vs[..j])
        invariant Valid()
      {
        assert vs[..j + 1][..j] == vs[..j];
        items := items + [Coerce(kind, vs[j])];
      }
      assert vs[..|vs|] == vs;
    }

    /**
      insert: each value in turn is coerced and inserted at index + its
      position; the first value that is not a scalar stops the loop with an
      error, keeping the values inserted before it.
     */
    method Insert(index: int, values: seq<Any>) returns (r: Result<(), Failure>)
      requires Valid()
      modifies this
      ensures Valid()
      ensures r.Ok? <==> ScalarPrefix(values) == |values|
      ensures items == InsertedAll(old(items), kind, index, values[..ScalarPrefix(values)])
      ensures r.Err? ==> r.error == Error
    {
      var n := ScalarPrefix(values);
      InsertedAllKind(items, kind, index, values[..n]);
      for j := 0 to |values|
        invariant j <= n
        invariant items == InsertedAll(old(items), kind, index, values[..j])
      {
        if !IsScalar(values[j]) {
          assert j == n;
          return Err(Error);
        }
        InsertedStep(old(items), kind, index, values, j);
        items := Slices.Insert(items, index + j, [Coerce(kind, values[j])]);
      }
      assert n == |values| && values[..|values|] == values;
      return Ok(());
    }

    /**
      drop: sorts the indexes, then pops them highest first. A pop at or past
      the end panics; the pops before it stay applied.
     */
    method Drop(indexes: seq<int>) returns (r: Result<(), Failure>)
      requires Valid()
      modifies this
      ensures Valid()
      ensures (items, r.Ok?) == PopEach(old(items), Reverse(Sort(indexes)))
      ensures r.Err? ==> r.error == Panic
    {
      var order := Reverse(Sort(indexes));
      ReverseAt(Sort(indexes));
      for j := 0 to |order|
        invariant PopEach(old(items), order) == PopEach(items, order[j..])
        invariant Valid()
      {
        assert order[j..][1..] == order[j + 1..];
        var p := Slices.Pop(items, order[j]);
        if p.None? {
          return Err(Panic);
        }
        PopKeepsKind(items, order[j], kind);
        items := p.value.0;
      }
      assert order[|order|..] == [];
      return Ok(());
    }

    /** index: the element at a position; out of range panics (None). */
    function Index(i: int): (r: Option<Element>)
      reads this
      ensures r.Some? <==> 0 <= i < |items|
      ensures r.Some? ==> r.value == items[i]
    {
      if 0 <= i < |items| then Some(items[i]) else None
    }

    /** len. */
    function Len(): (n: nat)
      reads this
      ensures n == |items|
    {
      |items|
    }

    /** records, int, float and bool: one reader applied to every element, in order. */
    function RecordsAll(): (r: seq<string>)
      reads this
      ensures |r| == |items| && forall i :: 0 <= i < |items| ==> r[i] == Records(items[i])
    {
      seq(|items|, i requires 0 <= i < |items| reads this => Records(items[i]))
    }

    function IntAll(): (r: seq<Int64>)
      reads this
      ensures |r| == |items| && forall i :: 0 <= i < |items| ==> r[i] == Int(items[i])
    {
      seq(|items|, i requires 0 <= i < |items| reads this => Int(items[i]))
    }

    function FloatAll(): (r: seq<Float64>)
      reads this
      ensures |r| == |items| && forall i :: 0 <= i < |items| ==> r[i] == Float(items[i])
    {
      seq(|items|, i requires 0 <= i < |items| reads this => Float(items[i]))
    }

    function BoolAll(): (r: seq<bool>)
      reads this
      ensures |r| == |items| && forall i :: 0 <= i < |items| ==> r[i] == Bool(items[i])
    {
      seq(|items|, i requires 0 <= i < |items| reads this => Bool(items[i]))
    }
  }

  // ---------------------------------------------------------------------------
  // Properties of the typed lists
  // ---------------------------------------------------------------------------

  lemma InsertedStep(s: seq<Element>, k: Kind, index: int, vs: seq<Any>, j: nat)
    requires j < |vs| && forall i :: 0 <= i <= j ==> IsScalar(vs[i])
    ensures InsertedAll(s, k, index, vs[..j + 1])
      == Slices.Insert(InsertedAll(s, k, index, vs[..j]), index + j, [Coerce(k, vs[j])])
  {
    assert vs[..j + 1][..j] == vs[..j];
  }

  /** Inserting coerced values keeps a list homogeneous. */
  lemma {:induction false} InsertedAllKind(s: seq<Element>, k: Kind, index: int, vs: seq<Any>)
    requires forall i :: 0 <= i < |s| ==> KindOf(s[i]) == k
    requires forall i :: 0 <= i < |vs| ==> IsScalar(vs[i])
    ensures forall i :: 0 <= i < |InsertedAll(s, k, index, vs)| ==> KindOf(InsertedAll(s, k, index, vs)[i]) == k
    decreases |vs|
  {
    if vs != [] {
      var n := |vs| - 1;
      var before := InsertedAll(s, k, index, vs[..n]);
      InsertedAllKind(s, k, index, vs[..n]);
      assert forall i :: 0 <= i < |before| ==> KindOf(before[i]) == k;
      InsertKeepsKind(before, index + n, Coerce(k, vs[n]), k);
    }
  }

  /** Kind-homogeneity survives inserting an element of the same kind. */
  lemma InsertKeepsKind(s: seq<Element>, index: int, x: Element, k: Kind)
    requires forall i :: 0 <= i < |s| ==> KindOf(s[i]) == k
    requires KindOf(x) == k
    ensures var r := Slices.Insert(s, index, [x]); forall i :: 0 <= i < |r| ==> KindOf(r[i]) == k
  {
    var p := Slices.Normalise(|s|, index);
    assert Slices.Insert(s, index, [x]) == s[..p] + [x] + s[p..];
  }

  /** Kind-homogeneity survives a pop. */
  lemma PopKeepsKind(s: seq<Element>, index: int, k: Kind)
    requires forall i :: 0 <= i < |s| ==> KindOf(s[i]) == k
    requires Slices.Pop(s, index).Some?
    ensures var r := Slices.Pop(s, index).value.0; forall i :: 0 <= i < |r| ==> KindOf(r[i]) == k
  {
    var p := Slices.Normalise(|s|, index);
    assert Slices.Pop(s, index).value.0 == s[..p] + s[p + 1..];
  }

  /** One more insertion just after a block inserted at index extends the block. */
  lemma InsertAfterBlock<E>(s: seq<E>, index: nat, c: seq<E>, x: E)
    requires index <= |s|
    ensures Slices.Insert(s[..index] + c + s[index..], index + |c|, [x]) == s[..index] + (c + [x]) + s[index..]
  {
    var before := s[..index] + c + s[index..];
    assert before[..index + |c|] == s[..index] + c;
    assert before[index + |c|..] == s[index..];
  }

  /** Inserting at an index inside the list puts value k at index + k: the values land together, in order, before the old element at index. */
  lemma {:induction false} InsertContiguous(s: seq<Element>, k: Kind, index: int, vs: seq<Any>)
    requires 0 <= index <= |s|
    requires forall i :: 0 <= i < |vs| ==> IsScalar(vs[i])
    ensures InsertedAll(s, k, index, vs) == s[..index] + CoerceAll(k, vs) + s[index..]
    decreases |vs|
  {
    if vs == [] {
      assert s[..index] + [] + s[index..] == s;
    } else {
      var n := |vs| - 1;
      InsertContiguous(s, k, index, vs[..n]);
      var x := Coerce(k, vs[n]);
      var c := CoerceAll(k, vs[..n]);
      calc {
        InsertedAll(s, k, index, vs);
        Slices.Insert(InsertedAll(s, k, index, vs[..n]), index + n, [x]);
        Slices.Insert(s[..index] + c + s[index..], index + |c|, [x]);
        { InsertAfterBlock(s, index, c, x); }
        s[..index] + (c + [x]) + s[index..];
      }
    }
  }

  /** With non-negative indexes, popping is slices.Delete: it removes the same position and panics at the same point. */
  lemma {:induction false} PopEachIsDeleteEach(s: seq<Element>, ds: seq<int>)
    requires forall i :: 0 <= i < |ds| ==> ds[i] >= 0
    ensures PopEach(s, ds) == DeleteEach(s, ds)
    decreases |ds|
  {
    if ds != [] {
      PopEachIsDeleteEach(if ds[0] < |s| then s[..ds[0]] + s[ds[0] + 1..] else s, ds[1..]);
    }
  }

  /**
    Dropping distinct in-range indexes shrinks the list by their count and
    keeps the other elements in their order.
   */
  lemma DropDistinct(s: seq<Element>, indexes: seq<int>)
    requires forall i :: 0 <= i < |indexes| ==> 0 <= indexes[i] < |s|
    requires forall i, j :: 0 <= i < j < |indexes| ==> indexes[i] != indexes[j]
    ensures PopEach(s, Reverse(Sort(indexes))) == (Keep(s, set x | x in indexes), true)
    ensures |Keep(s, set x | x in indexes)| == |s| - |indexes|
  {
    var order := SortDescending(indexes);
    DescendingDistinct(order, indexes);
    forall i | 0 <= i < |order| ensures 0 <= order[i] < |s| {
      assert order[i] in multiset(indexes);
    }
    PopEachIsDeleteEach(s, order);
    DeleteDescending(s, order);
    assert (set x | x in order) == (set x | x in indexes) by {
      forall x ensures x in order <==> x in indexes {
        assert x in order <==> x in multiset(order);
        assert x in indexes <==> x in multiset(indexes);
      }
    }
    KeepLength(s, set x | x in indexes);
    DistinctCard(indexes);
  }

  lemma {:induction false} DistinctCard(s: seq<int>)
    requires forall i, j :: 0 <= i < j < |s| ==> s[i] != s[j]
    ensures |set x | x in s| == |s|
    decreases |s|
  {
    if s != [] {
      var init := s[..|s| - 1];
      DistinctCard(init);
      assert (set x | x in s) == (set x | x in init) + {s[|s| - 1]};
      assert s[|s| - 1] !in init;
    } else {
      assert (set x | x in s) == {};
    }
  }

  /** The list readers agree: same length, and an element renders as "NaN" exactly when it is missing. */
  lemma ReadersAgree(l: ElementList, i: int)
    requires 0 <= i < |l.items|
    ensures |l.RecordsAll()| == |l.IntAll()| == |l.FloatAll()| == |l.BoolAll()| == l.Len()
    ensures l.RecordsAll()[i] == "NaN" <==> IsNaN(l.items[i])
  {
    IsNaNRecords(l.items[i]);
  }
}
