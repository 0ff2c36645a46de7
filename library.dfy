/**
  Sequence helpers the table engine calls whose own source is not part of this
  model: Reverse, Range, CreateSlice, Filter and Overlap of the data package, and
  sort.Ints, slices.SortFunc, slices.Compact and slices.Max of Go's standard
  library. Each is given its evident definition on `seq`, with the facts the
  rest of the model relies on proved here once.
 */
module Library {
  import opened Wrappers

  // ---------------------------------------------------------------------------
  // Reverse and Repeat
  // ---------------------------------------------------------------------------

  /** data.Reverse: the sequence back to front. */
  function Reverse<T>(s: seq<T>): seq<T>
  {
    if s == [] then [] else Reverse(s[1..]) + [s[0]]
  }

  /** Position i of the reversal holds position |s| - 1 - i of the original. */
  lemma {:induction false} ReverseAt<T>(s: seq<T>)
    ensures |Reverse(s)| == |s|
    ensures forall i :: 0 <= i < |s| ==> Reverse(s)[i] == s[|s| - 1 - i]
    decreases |s|
  {
    if s != [] {
      ReverseAt(s[1..]);
    }
  }

  lemma ReversePush<T>(s: seq<T>, x: T)
    ensures Reverse(s + [x]) == [x] + Reverse(s)
  {
    var l := Reverse(s + [x]);
    var r := [x] + Reverse(s);
    ReverseAt(s + [x]);
    ReverseAt(s);
    assert forall i :: 0 <= i < |l| ==> l[i] == r[i];
  }

  lemma ReverseCons<T>(x: T, s: seq<T>)
    ensures Reverse([x] + s) == Reverse(s) + [x]
  {
    assert ([x] + s)[1..] == s;
  }

  lemma {:induction false} ReverseAppend<T>(u: seq<T>, v: seq<T>)
    ensures Reverse(u + v) == Reverse(v) + Reverse(u)
    decreases |u|
  {
    if u != [] {
      assert (u + v)[1..] == u[1..] + v;
      ReverseAppend(u[1..], v);
    } else {
      assert u + v == v;
    }
  }

  /** Reversal keeps the elements: it is a permutation. */
  lemma {:induction false} ReversePermutes<T>(s: seq<T>)
    ensures multiset(Reverse(s)) == multiset(s)
    decreases |s|
  {
    if s != [] {
      ReversePermutes(s[1..]);
      assert s == [s[0]] + s[1..];
    }
  }

  /** data.CreateSlice: n copies of x. */
  function Repeat<T>(x: T, n: nat): seq<T>
  {
    seq(n, _ => x)
  }

  /** data.Range(0, n, 1): the positions 0 .. n-1 in order. */
  function Range(n: nat): (r: seq<int>)
    ensures |r| == n && forall i :: 0 <= i < n ==> r[i] == i
  {
    seq(n, i => i)
  }

  // ---------------------------------------------------------------------------
  // Sorting (sort.Ints, and slices.SortFunc with a descending comparison)
  // ---------------------------------------------------------------------------

  predicate Ascending(s: seq<int>) {
    forall i, j :: 0 <= i < j < |s| ==> s[i] <= s[j]
  }

  predicate Descending(s: seq<int>) {
    forall i, j :: 0 <= i < j < |s| ==> s[i] >= s[j]
  }

  /** x placed into an ascending sequence before the first larger element. */
  function InsertAscending(x: int, s: seq<int>): (r: seq<int>)
    requires Ascending(s)
    ensures |r| == |s| + 1 && r[0] == (if s == [] || x <= s[0] then x else s[0])
    ensures Ascending(r)
  {
    if s == [] || x <= s[0] then [x] + s
    else
      var t := InsertAscending(x, s[1..]);
      var r := [s[0]] + t;
      assert forall j :: 0 < j < |r| ==> r[0] <= r[1] <= r[j];
      r
  }

  lemma {:induction false} InsertAscendingPermutes(x: int, s: seq<int>)
    requires Ascending(s)
    ensures multiset(InsertAscending(x, s)) == multiset(s) + multiset{x}
    decreases |s|
  {
    if s != [] && x > s[0] {
      InsertAscendingPermutes(x, s[1..]);
      assert s == [s[0]] + s[1..];
    }
  }

  /** sort.Ints: the ascending permutation of s. */
  function Sort(s: seq<int>): (r: seq<int>)
    ensures Ascending(r)
  {
    if s == [] then [] else InsertAscending(s[0], Sort(s[1..]))
  }

  lemma {:induction false} SortPermutes(s: seq<int>)
    ensures multiset(Sort(s)) == multiset(s)
    decreases |s|
  {
    if s != [] {
      SortPermutes(s[1..]);
      InsertAscendingPermutes(s[0], Sort(s[1..]));
      assert s == [s[0]] + s[1..];
    }
  }

  /** slices.SortFunc with cmp.Compare(b, a): the descending permutation of s. */
  function SortDescending(s: seq<int>): (r: seq<int>)
    ensures Descending(r) && multiset(r) == multiset(s)
  {
    var a := Sort(s);
    ReverseAt(a);
    ReversePermutes(a);
    SortPermutes(s);
    Reverse(a)
  }

  // ---------------------------------------------------------------------------
  // slices.Compact and slices.Max
  // ---------------------------------------------------------------------------

  /** slices.Compact: every run of equal adjacent elements replaced by one of them. */
  function Compact(s: seq<int>): (r: seq<int>)
    ensures |r| <= |s|
    ensures forall x :: x in r <==> x in s
    ensures forall i :: 0 <= i < |r| - 1 ==> r[i] != r[i + 1]
    ensures |s| > 0 ==> |r| > 0 && r[|r| - 1] == s[|s| - 1]
  {
    if |s| <= 1 then s
    else
      var init := Compact(s[..|s| - 1]);
      assert forall x :: x in s <==> x in s[..|s| - 1] || x == s[|s| - 1] by {
        assert s == s[..|s| - 1] + [s[|s| - 1]];
      }
      if s[|s| - 1] == s[|s| - 2] then init else init + [s[|s| - 1]]
  }

  /** A sorted sequence with no two adjacent equal elements has no duplicates at all. */
  lemma CompactDescendingDistinct(s: seq<int>)
    requires Descending(s)
    ensures StrictlyDescending(Compact(s))
  {
    var r := Compact(s);
    CompactDescending(s);
    forall i, j | 0 <= i < j < |r| ensures r[i] > r[j] {
      assert r[i] != r[i + 1] && r[i] >= r[i + 1] && r[i + 1] >= r[j];
    }
  }

  /** Compact keeps a descending sequence descending. */
  lemma {:induction false} CompactDescending(s: seq<int>)
    requires Descending(s)
    ensures Descending(Compact(s))
    decreases |s|
  {
    if |s| > 1 {
      var init := s[..|s| - 1];
      CompactDescending(init);
      var c := Compact(init);
      if s[|s| - 1] != s[|s| - 2] {
        var r := c + [s[|s| - 1]];
        forall i, j | 0 <= i < j < |r| ensures r[i] >= r[j] {
          if j == |r| - 1 {
            assert r[i] in init;
          }
        }
      }
    }
  }

  predicate StrictlyAscending(s: seq<int>) {
    forall i, j :: 0 <= i < j < |s| ==> s[i] < s[j]
  }

  lemma FirstIsMember(s: seq<int>)
    ensures s != [] ==> s[0] in s
  {
  }

  /** A strictly ascending list is determined by its members. */
  lemma {:induction false} AscendingUnique(a: seq<int>, b: seq<int>)
    requires StrictlyAscending(a) && StrictlyAscending(b)
    requires forall x :: x in a <==> x in b
    ensures a == b
    decreases |a|
  {
    if a == [] {
      FirstIsMember(b);
    } else {
      assert a[0] in a;
      assert b != [] && b[0] in b;
      assert a[0] == b[0] by {
        var i :| 0 <= i < |a| && a[i] == b[0];
        var j :| 0 <= j < |b| && b[j] == a[0];
        assert a[0] <= a[i] && b[0] <= b[j];
      }
      forall x ensures x in a[1..] <==> x in b[1..] {
        if x in a[1..] {
          var i :| 1 <= i < |a| && a[i] == x;
          assert x in b && x != b[0];
          var j :| 0 <= j < |b| && b[j] == x;
          assert b[1..][j - 1] == x;
        }
        if x in b[1..] {
          var j :| 1 <= j < |b| && b[j] == x;
          assert x in a && x != a[0];
          var i :| 0 <= i < |a| && a[i] == x;
          assert a[1..][i - 1] == x;
        }
      }
      AscendingUnique(a[1..], b[1..]);
      assert a == [a[0]] + a[1..] && b == [b[0]] + b[1..];
    }
  }

  /** Compact keeps an ascending sequence ascending. */
  lemma {:induction false} CompactAscending(s: seq<int>)
    requires Ascending(s)
    ensures Ascending(Compact(s))
    decreases |s|
  {
    if |s| > 1 {
      var init := s[..|s| - 1];
      CompactAscending(init);
      var c := Compact(init);
      if s[|s| - 1] != s[|s| - 2] {
        var r := c + [s[|s| - 1]];
        forall i, j | 0 <= i < j < |r| ensures r[i] <= r[j] {
          if j == |r| - 1 {
            assert r[i] in init;
          }
        }
      }
    }
  }

  /** The union of two index lists as a sorted list without repeats: Compact after sort.Ints. */
  function Union(a: seq<int>, b: seq<int>): (r: seq<int>)
    ensures forall x :: x in r <==> x in a || x in b
    ensures StrictlyAscending(r)
  {
    var s := Sort(a + b);
    SortMembers(a + b);
    CompactAscendingDistinct(s);
    Compact(s)
  }

  /** Sorting keeps exactly the members. */
  lemma SortMembers(s: seq<int>)
    ensures forall x :: x in Sort(s) <==> x in s
  {
    SortPermutes(s);
    assert forall x :: x in Sort(s) <==> x in multiset(Sort(s));
    assert forall x :: x in s <==> x in multiset(s);
  }

  /** A sorted sequence compacted has no duplicates at all. */
  lemma CompactAscendingDistinct(s: seq<int>)
    requires Ascending(s)
    ensures StrictlyAscending(Compact(s))
  {
    var r := Compact(s);
    CompactAscending(s);
    forall i, j | 0 <= i < j < |r| ensures r[i] < r[j] {
      assert r[i] != r[i + 1] && r[i] <= r[i + 1] && r[i + 1] <= r[j];
    }
  }

  /** slices.Max: the largest element; an empty slice panics (None). */
  function Max(s: seq<int>): (r: Option<int>)
    ensures r.None? <==> s == []
    ensures r.Some? ==> r.value in s && forall x :: x in s ==> x <= r.value
  {
    if s == [] then None
    else if |s| == 1 then Some(s[0])
    else
      var m := Max(s[1..]).value;
      assert s == [s[0]] + s[1..];
      Some(if s[0] >= m then s[0] else m)
  }

  // ---------------------------------------------------------------------------
  // data.Filter and data.Overlap
  // ---------------------------------------------------------------------------

  /** The positions of data.Filter: those whose element passes `keep`, ascending. */
  function Positions<T>(s: seq<T>, keep: T -> bool): (r: seq<int>)
    ensures forall i :: 0 <= i < |r| ==> 0 <= r[i] < |s| && keep(s[r[i]])
    ensures forall i :: 0 <= i < |s| && keep(s[i]) ==> i in r
    ensures forall i, j :: 0 <= i < j < |r| ==> r[i] < r[j]
  {
    if s == [] then []
    else
      var init := Positions(s[..|s| - 1], keep);
      if keep(s[|s| - 1]) then init + [|s| - 1] else init
  }

  /** The ascending list of exactly the positions that pass `keep` is Positions. */
  lemma PositionsUnique<T>(s: seq<T>, keep: T -> bool, r: seq<int>)
    requires StrictlyAscending(r)
    requires forall x :: x in r <==> 0 <= x < |s| && keep(s[x])
    ensures Positions(s, keep) == r
  {
    var p := Positions(s, keep);
    forall x ensures x in p <==> x in r {
      if x in p {
        var i :| 0 <= i < |p| && p[i] == x;
      }
    }
    AscendingUnique(p, r);
  }

  /** data.Overlap: the members of a that also occur in b, in a's order. */
  function Overlap(a: seq<int>, b: seq<int>): (r: seq<int>)
    ensures forall x :: x in r <==> x in a && x in b
    ensures |r| <= |a|
  {
    if a == [] then []
    else
      var init := Overlap(a[..|a| - 1], b);
      assert forall x :: x in a <==> x in a[..|a| - 1] || x == a[|a| - 1] by {
        assert a == a[..|a| - 1] + [a[|a| - 1]];
      }
      if a[|a| - 1] in b then init + [a[|a| - 1]] else init
  }

  /** Overlap keeps a strictly ascending list strictly ascending. */
  lemma {:induction false} OverlapAscending(a: seq<int>, b: seq<int>)
    requires StrictlyAscending(a)
    ensures StrictlyAscending(Overlap(a, b))
    decreases |a|
  {
    if a != [] {
      var init := a[..|a| - 1];
      OverlapAscending(init, b);
      var r := Overlap(a, b);
      if a[|a| - 1] in b {
        forall i, j | 0 <= i < j < |r| ensures r[i] < r[j] {
          if j == |r| - 1 {
            assert r[i] in init;
          }
        }
      }
    }
  }

  // ---------------------------------------------------------------------------
  // Removing positions (slices.Delete, one position at a time)
  // ---------------------------------------------------------------------------

  /** The elements of s whose positions are not in gone, in their original order. */
  function Keep<E>(s: seq<E>, gone: set<int>): seq<E>
  {
    if s == [] then []
    else Keep(s[..|s| - 1], gone) + (if |s| - 1 in gone then [] else [s[|s| - 1]])
  }

  lemma {:induction false} KeepSame<E>(s: seq<E>, a: set<int>, b: set<int>)
    requires forall p :: 0 <= p < |s| ==> (p in a <==> p in b)
    ensures Keep(s, a) == Keep(s, b)
    decreases |s|
  {
    if s != [] {
      KeepSame(s[..|s| - 1], a, b);
    }
  }

  /** Past position h nothing is removed, so the tail survives whole. */
  lemma {:induction false} KeepTail<E>(s: seq<E>, gone: set<int>, h: nat)
    requires h <= |s| && forall p :: h <= p < |s| ==> p !in gone
    ensures Keep(s, gone) == Keep(s[..h], gone) + s[h..]
    decreases |s|
  {
    if h < |s| {
      var init := s[..|s| - 1];
      KeepTail(init, gone, h);
      assert init[..h] == s[..h];
      assert init[h..] + [s[|s| - 1]] == s[h..];
    } else {
      assert s[..h] == s;
    }
  }

  /** Removing position h, when every other removed position lies below h, is keeping all but gone and h. */
  lemma RemoveOne<E>(s: seq<E>, h: nat, gone: set<int>)
    requires h < |s| && forall p :: p in gone ==> p < h
    ensures Keep(s[..h] + s[h + 1..], gone) == Keep(s, gone + {h})
  {
    var t := s[..h] + s[h + 1..];
    KeepTail(t, gone, h);
    assert t[..h] == s[..h] && t[h..] == s[h + 1..];
    KeepTail(s, gone + {h}, h + 1);
    assert s[..h + 1][..h] == s[..h];
    KeepSame(s[..h], gone + {h}, gone);
  }

  /** Keep drops exactly one element per removed in-range position. */
  lemma {:induction false} KeepLength<E>(s: seq<E>, gone: set<int>)
    requires forall p :: p in gone ==> 0 <= p < |s|
    ensures |Keep(s, gone)| == |s| - |gone|
    decreases |s|
  {
    if s != [] {
      var last := |s| - 1;
      var rest := gone - {last};
      KeepSame(s[..last], gone, rest);
      KeepLength(s[..last], rest);
      assert Keep(s, gone) == Keep(s[..last], gone) + (if last in gone then [] else [s[last]]);
      if last in gone {
        assert gone == rest + {last} && last !in rest;
        assert |gone| == |rest| + 1;
      } else {
        assert gone == rest;
      }
    } else {
      assert gone == {} by {
        forall p | p in gone ensures false { }
      }
    }
  }

  predicate StrictlyDescending(s: seq<int>) {
    forall i, j :: 0 <= i < j < |s| ==> s[i] > s[j]
  }

  /** slices.Delete(s, i, i+1): s without position i; it panics (None) unless 0 <= i < |s|. */
  function Delete<E>(s: seq<E>, i: int): (r: Option<seq<E>>)
    ensures r.Some? <==> 0 <= i < |s|
    ensures r.Some? ==> |r.value| == |s| - 1
  {
    if 0 <= i < |s| then Some(s[..i] + s[i + 1..]) else None
  }

  /** Delete the positions of ds in turn: the state reached, and whether no call panicked. */
  function DeleteEach<E>(s: seq<E>, ds: seq<int>): (seq<E>, bool)
    decreases |ds|
  {
    if ds == [] then (s, true)
    else
      match Delete(s, ds[0])
      case None => (s, false)
      case Some(t) => DeleteEach(t, ds[1..])
  }

  /** Deleting distinct in-range positions highest first removes exactly those positions. */
  lemma {:induction false} DeleteDescending<E>(s: seq<E>, ds: seq<int>)
    requires StrictlyDescending(ds) && forall i :: 0 <= i < |ds| ==> 0 <= ds[i] < |s|
    ensures DeleteEach(s, ds) == (Keep(s, set x | x in ds), true)
    decreases |ds|
  {
    if ds == [] {
      assert (set x | x in ds) == {};
      assert Keep(s, {}) == s by { KeepTail(s, {}, 0); }
    } else {
      var h := ds[0];
      var rest := ds[1..];
      var t := s[..h] + s[h + 1..];
      assert DeleteEach(s, ds) == DeleteEach(t, rest);
      assert forall i :: 0 <= i < |rest| ==> 0 <= rest[i] < h by {
        forall i | 0 <= i < |rest| ensures 0 <= rest[i] < h { assert rest[i] == ds[i + 1]; }
      }
      DeleteDescending(t, rest);
      var r := set x | x in rest;
      RemoveOne(s, h, r);
      assert (set x | x in ds) == r + {h} by {
        assert ds == [h] + rest;
      }
    }
  }

  /** Deleting positions highest first panics when one of them is out of range. */
  lemma {:induction false} DeleteEachFails<E>(s: seq<E>, ds: seq<int>)
    requires StrictlyDescending(ds) && exists i :: 0 <= i < |ds| && !(0 <= ds[i] < |s|)
    ensures !DeleteEach(s, ds).1
    decreases |ds|
  {
    if 0 <= ds[0] < |s| {
      var i :| 0 <= i < |ds| && !(0 <= ds[i] < |s|);
      assert ds[i] < 0 && ds[1..][i - 1] == ds[i];
      DeleteEachFails(s[..ds[0]] + s[ds[0] + 1..], ds[1..]);
    }
  }

  /** A descending permutation of a sequence without repeats has no repeats either. */
  lemma DescendingDistinct(r: seq<int>, s: seq<int>)
    requires Descending(r) && multiset(r) == multiset(s)
    requires forall i, j :: 0 <= i < j < |s| ==> s[i] != s[j]
    ensures StrictlyDescending(r)
  {
    forall i, j | 0 <= i < j < |r| ensures r[i] > r[j] {
      if r[i] == r[j] {
        RepeatCount(r, i, j);
        DistinctCount(s, r[i]);
      }
    }
  }

  /** A value at two positions occurs at least twice. */
  lemma RepeatCount(r: seq<int>, i: nat, j: nat)
    requires i < j < |r| && r[i] == r[j]
    ensures multiset(r)[r[i]] >= 2
  {
    var x := r[i];
    assert r == r[..i] + [x] + r[i + 1..j] + [x] + r[j + 1..];
  }

  lemma {:induction false} DistinctCount(s: seq<int>, x: int)
    requires forall i, j :: 0 <= i < j < |s| ==> s[i] != s[j]
    ensures multiset(s)[x] <= 1
    decreases |s|
  {
    if s != [] {
      DistinctCount(s[1..], x);
      assert s == [s[0]] + s[1..];
      if s[0] == x {
        assert x !in s[1..];
      }
    }
  }

  // ---------------------------------------------------------------------------
  // Go's conversion of an integer to float64
  // ---------------------------------------------------------------------------

  /** 2^53: every integer up to it in magnitude is a float64. */
  const ExactDoubleBound: nat := 0x20_0000_0000_0000

  /** The gap between consecutive float64 values at n: 1 below 2^53, doubling with each further bit. */
  function Ulp(n: nat): (u: nat)
    ensures u >= 1
  {
    if n < ExactDoubleBound then 1 else 2 * Ulp(n / 2)
  }

  /** The nearest multiple of Ulp(n), ties to the even multiple. */
  function RoundMagnitude(n: nat): nat
  {
    var u := Ulp(n);
    var q, r := n / u, n % u;
    if 2 * r < u || (2 * r == u && q % 2 == 0) then q * u else (q + 1) * u
  }

  /**
    float64(n) for an integer n, as the integral value it yields: IEEE 754
    round to nearest, ties to even, symmetric in the sign.
   */
  function RoundToDouble(n: int): int
  {
    if n < 0 then -(RoundMagnitude(-n) as int) else RoundMagnitude(n)
  }

  /** Integers of magnitude up to 2^53 convert exactly. */
  lemma RoundExact(n: int)
    requires -(ExactDoubleBound as int) <= n <= ExactDoubleBound
    ensures RoundToDouble(n) == n
  {
    var m := if n < 0 then -n else n;
    if m == ExactDoubleBound {
      assert Ulp(m) == 2 * Ulp(m / 2) == 2;
    }
  }

  /** 2^53 + 1 is not a float64: it is a tie and rounds down to the even neighbour 2^53. */
  lemma RoundAboveBound()
    ensures RoundToDouble(ExactDoubleBound + 1) == ExactDoubleBound
  {
    var m := ExactDoubleBound + 1;
    assert Ulp(m) == 2 * Ulp(m / 2) == 2;
  }

  /** 2^52: a gap of u > 1 starts at u * 2^52. */
  const HalfExactBound: nat := 0x10_0000_0000_0000

  /** The gap u at n is the one of n's binade: n < u * 2^53, and n >= u * 2^52 once u > 1. */
  lemma {:induction false} UlpRange(n: nat)
    ensures n < Ulp(n) * ExactDoubleBound
    ensures Ulp(n) > 1 ==> Ulp(n) * HalfExactBound <= n
    decreases n
  {
    if n >= ExactDoubleBound {
      UlpRange(n / 2);
    }
  }

  /**
    Every n from the start of x's binade up to its end has x's gap: the
    gap of a float64 depends only on the binade it lies in.
   */
  lemma {:induction false} BinadeUlp(x: nat, n: nat)
    requires Ulp(x) == 1 || Ulp(x) * HalfExactBound <= n
    requires n < Ulp(x) * ExactDoubleBound
    ensures Ulp(n) == Ulp(x)
    decreases x
  {
    if Ulp(x) > 1 {
      assert x >= ExactDoubleBound;
      BinadeUlp(x / 2, n / 2);
    }
  }

  // ---------------------------------------------------------------------------
  // Division by a variable divisor, step by step
  // ---------------------------------------------------------------------------

  lemma DivMod(m: nat, p: nat)
    requires p >= 1
    ensures m == m / p * p + m % p && m % p < p
  {
  }

  lemma MulMono(j: int, k: int, p: nat)
    ensures j <= k ==> j * p <= k * p
  {
  }

  /** A positive multiple of p is at least p. */
  lemma MultipleAtLeast(k: nat, p: nat)
    requires k * p >= 1
    ensures k * p >= p
  {
  }

  /** n == q * u + r with 0 <= r < u fixes the quotient and the remainder. */
  lemma DivModUnique(n: int, u: int, q: int, r: int)
    requires u >= 1 && n == q * u + r && 0 <= r < u
    ensures n / u == q && n % u == r
  {
    var d := n / u - q;
    assert d * u == r - n % u;
    MulMono(1, d, u);
    MulMono(d, -1, u);
  }

  lemma MulMod(q: nat, p: nat)
    requires p >= 1
    ensures (q * p) % p == 0 && (q * p) / p == q
  {
    DivModUnique(q * p, p, q, 0);
  }

  lemma DivMono(a: nat, b: nat, p: nat)
    requires p >= 1 && a <= b
    ensures a / p <= b / p
  {
    var qa, qb := a / p, b / p;
    if qa > qb {
      MulMono(qb + 1, qa, p);
    }
  }

  // ---------------------------------------------------------------------------
  // Rounding to a float64
  // ---------------------------------------------------------------------------

  /** A float64 magnitude is a multiple of its gap. */
  lemma DoubleIsMultiple(m: nat)
    requires RoundMagnitude(m) == m
    ensures m % Ulp(m) == 0
  {
    var u := Ulp(m);
    var q, r := m / u, m % u;
    var k := if 2 * r < u || (2 * r == u && q % 2 == 0) then q else q + 1;
    assert m == k * u;
    MulMod(k, u);
  }

  /** Rounding moves n by less than a gap, and a gap is at most n + 1: the result is at most 2 * n + 1. */
  lemma RoundBound(n: nat)
    ensures RoundMagnitude(n) <= 2 * n + 1
  {
    var u := Ulp(n);
    DivMod(n, u);
    var q := n / u;
    assert (q + 1) * u == q * u + u;
    UlpRange(n);
    if u > 1 {
      MulMono(1, HalfExactBound, u);
    }
  }

  /**
    A c within half a gap u of M = J * u, where c's own gap is u, rounds to
    M; at exactly half a gap it does so only when J is even.
   */
  lemma RoundNear(c: nat, u: nat, J: nat, M: nat)
    requires Ulp(c) == u && M == J * u
    requires 2 * M - u <= 2 * c <= 2 * M + u
    requires (2 * c == 2 * M - u || 2 * c == 2 * M + u) ==> J % 2 == 0
    ensures RoundMagnitude(c) == M
  {
    if c >= M {
      DivModUnique(c, u, J, c - M);
    } else {
      assert J >= 1;
      assert M - u == (J - 1) * u;
      DivModUnique(c, u, J - 1, c - (M - u));
    }
  }

  /**
    The gap g just below a positive float64 m is m's own gap, or half of it
    when m starts a binade; either way m is a multiple of g lying past the
    start of the binade of m - 1, and g keeps the parity of m's mantissa
    when that is even.
   */
  lemma GapBelow(m: nat)
    requires RoundMagnitude(m) == m && m >= 1 && Ulp(m - 1) > 1
    ensures var g := Ulp(m - 1);
      && m == (m / g) * g
      && g * HalfExactBound + g <= m
      && ((m / Ulp(m)) % 2 == 0 ==> (m / g) % 2 == 0)
  {
    var u, g := Ulp(m), Ulp(m - 1);
    DoubleIsMultiple(m);
    DivMod(m, u);
    var j := m / u;
    UlpRange(m);
    assert m - 1 >= ExactDoubleBound;
    if m - 1 >= u * HalfExactBound {
      BinadeUlp(m, m - 1);
      assert j >= HalfExactBound + 1 by {
        if j <= HalfExactBound { MulMono(j, HalfExactBound, u); }
      }
      MulMono(HalfExactBound + 1, j, u);
      MulMod(j, u);
    } else {
      assert m == u * HalfExactBound;
      BinadeUlp(m / 2, m - 1);
      DivModUnique(m, g, 2 * HalfExactBound, 0);
    }
  }

  /** A value at or above a positive float64 m that m admits lies in m's binade and rounds to m. */
  lemma AdmittedAbove(m: nat, c: nat)
    requires RoundMagnitude(m) == m && m >= 1 && Admits(m, c) && c >= m
    ensures RoundMagnitude(c) == m
  {
    var u := Ulp(m);
    DoubleIsMultiple(m);
    DivMod(m, u);
    var j := m / u;
    UlpRange(m);
    assert c < u * ExactDoubleBound by {
      MulMono(ExactDoubleBound, j, u);
      MulMono(j, ExactDoubleBound - 1, u);
    }
    BinadeUlp(m, c);
    RoundNear(c, u, j, m);
  }

  /** A value below a positive float64 m that m admits lies in the binade of m - 1 and rounds to m. */
  lemma AdmittedBelow(m: nat, c: nat)
    requires RoundMagnitude(m) == m && m >= 1 && Admits(m, c) && c < m
    ensures RoundMagnitude(c) == m
  {
    var g := Ulp(m - 1);
    UlpRange(m - 1);
    GapBelow(m);
    BinadeUlp(m - 1, c);
    RoundNear(c, g, m / g, m);
  }

  /** Every value that m admits rounds to the float64 m. */
  lemma AdmittedRounds(m: nat, c: nat)
    requires RoundMagnitude(m) == m && Admits(m, c)
    ensures RoundMagnitude(c) == m
  {
    if m == 0 {
      assert c == 0;
    } else if c >= m {
      AdmittedAbove(m, c);
    } else {
      AdmittedBelow(m, c);
    }
  }

  // ---------------------------------------------------------------------------
  // Go's shortest decimal rendering of a float64: strconv.FormatFloat(x, 'f', -1, 64)
  // ---------------------------------------------------------------------------

  /**
    The integer c reads back as the float64 magnitude m: it lies within half
    a gap of m, where the gap below m is Ulp(m - 1), half the gap above when
    m starts a binade. The ends belong to m when its mantissa m / Ulp(m)
    is even, as rounding half to even decides. Bounds are doubled to stay
    integral.
   */
  predicate Admits(m: nat, c: nat) {
    var below, above := if m == 0 then 1 else Ulp(m - 1), Ulp(m);
    if (m / above) % 2 == 0 then 2 * m - below <= 2 * c <= 2 * m + above
    else 2 * m - below < 2 * c < 2 * m + above
  }

  /** The values m admits form an interval around m. */
  lemma AdmitsBetween(m: nat, a: nat, b: nat)
    requires Admits(m, a) && (a <= b <= m || m <= b <= a)
    ensures Admits(m, b)
  {
  }

  /** The multiple of p at or below m. */
  function Below(m: nat, p: nat): nat
    requires p >= 1
  {
    m / p * p
  }

  /** The multiple of p at or above m. */
  function Above(m: nat, p: nat): nat
    requires p >= 1
  {
    if m % p == 0 then m else m / p * p + p
  }

  /** Below and Above are the multiples of p nearest to m from either side. */
  lemma BelowAbove(m: nat, p: nat)
    requires p >= 1
    ensures Below(m, p) % p == 0 && Above(m, p) % p == 0
    ensures Below(m, p) <= m <= Above(m, p)
    ensures m % p == 0 ==> Below(m, p) == m == Above(m, p)
  {
    var q := m / p;
    DivMod(m, p);
    MulMod(q, p);
    MulMod(q + 1, p);
  }

  /** A multiple of p is at or below Below(m, p), or at or above Above(m, p). */
  lemma MultipleSide(m: nat, c: nat, p: nat)
    requires p >= 1 && c % p == 0
    ensures c <= m ==> c <= Below(m, p)
    ensures c >= m ==> c >= Above(m, p)
  {
    DivMod(m, p);
    DivMod(c, p);
    var qc, qm := c / p, m / p;
    if c <= m {
      DivMono(c, m, p);
      MulMono(qc, qm, p);
    } else if m % p != 0 {
      DivMono(m, c, p);
      if qc > qm {
        MulMono(qm + 1, qc, p);
      }
    }
  }

  /** Some multiple of p reads back as m. */
  predicate HasAdmitted(m: nat, p: nat)
    requires p >= 1
  {
    Admits(m, Below(m, p)) || Admits(m, Above(m, p))
  }

  /** If any multiple of p reads back as m, one of the two nearest does. */
  lemma MultipleReaches(m: nat, c: nat, p: nat)
    requires p >= 1 && c % p == 0 && Admits(m, c)
    ensures HasAdmitted(m, p)
  {
    MultipleSide(m, c, p);
    BelowAbove(m, p);
    if c <= m {
      AdmitsBetween(m, c, Below(m, p));
    } else {
      AdmitsBetween(m, c, Above(m, p));
    }
  }

  predicate PowerOfTen(p: nat) {
    p == 1 || (p >= 10 && p % 10 == 0 && PowerOfTen(p / 10))
  }

  /** An admitted value of a positive m is positive and at most m + Ulp(m). */
  lemma AdmitsBounds(m: nat, c: nat)
    requires m >= 1 && Admits(m, c)
    ensures 1 <= c <= m + Ulp(m)
  {
    var g := Ulp(m - 1);
    UlpRange(m - 1);
    assert g <= m;
    assert 2 * m - g <= 2 * c <= 2 * m + Ulp(m);
  }

  /** A multiple of p that reads back as a positive m is at least p, so p <= m + Ulp(m). */
  lemma AdmittedMultiple(m: nat, c: nat, p: nat)
    requires m >= 1 && p >= 1 && Admits(m, c) && c % p == 0
    ensures p <= m + Ulp(m)
  {
    AdmitsBounds(m, c);
    DivMod(c, p);
    MultipleAtLeast(c / p, p);
  }

  lemma ReachesBound(m: nat, p: nat)
    requires m >= 1 && p >= 1 && HasAdmitted(m, p)
    ensures p <= m + Ulp(m)
  {
    BelowAbove(m, p);
    if Admits(m, Below(m, p)) {
      AdmittedMultiple(m, Below(m, p), p);
    } else {
      AdmittedMultiple(m, Above(m, p), p);
    }
  }

  /** The coarsest power of ten, from p on, with a multiple that reads back as m. */
  function Coarsest(m: nat, p: nat): (r: nat)
    requires m >= 1 && PowerOfTen(p) && HasAdmitted(m, p)
    ensures PowerOfTen(r) && r >= p && HasAdmitted(m, r) && !HasAdmitted(m, 10 * r)
    decreases m + Ulp(m) - p
  {
    ReachesBound(m, p);
    if HasAdmitted(m, 10 * p) then
      ReachesBound(m, 10 * p);
      Coarsest(m, 10 * p)
    else p
  }

  /** The power of ten Shortest(m) is a multiple of: 10^k for the largest k at which a multiple reads back as m. */
  function Step(m: nat): (p: nat)
    ensures PowerOfTen(p) && p >= 1
    ensures m >= 1 ==> !HasAdmitted(m, 10 * p)
  {
    if m == 0 then 1 else Coarsest(m, 1)
  }

  /**
    The value strconv.FormatFloat(m, 'f', -1, 64) spells for the float64
    magnitude m: of the multiples of Step(m) that read back as m, the one
    nearest to m, ties to the even multiple. Go's algorithm (Ryu) picks the
    same digits.
   */
  function Shortest(m: nat): (v: nat)
    ensures Admits(m, v)
  {
    var p := Step(m);
    var lo, hi := Below(m, p), Above(m, p);
    if !Admits(m, lo) then hi
    else if !Admits(m, hi) then lo
    else if m - lo < hi - m || (m - lo == hi - m && (m / p) % 2 == 0) then lo
    else hi
  }

  function Distance(a: int, b: int): nat {
    if a >= b then a - b else b - a
  }

  /**
    Shortest(m) reads back as m and is a multiple of Step(m); for m > 0 no
    value that reads back as m is a multiple of 10 * Step(m), so none has
    fewer significant digits; and of the multiples of Step(m) that read
    back as m, none is nearer to m.
   */
  lemma ShortestMeaning(m: nat, c: nat)
    ensures RoundMagnitude(m) == m ==> RoundMagnitude(Shortest(m)) == m
    ensures Shortest(m) % Step(m) == 0
    ensures m >= 1 && Admits(m, c) ==> c % (10 * Step(m)) != 0
    ensures Admits(m, c) && c % Step(m) == 0 ==> Distance(Shortest(m), m) <= Distance(c, m)
  {
    var p := Step(m);
    BelowAbove(m, p);
    if RoundMagnitude(m) == m {
      AdmittedRounds(m, Shortest(m));
    }
    if Admits(m, c) {
      if m >= 1 && c % (10 * p) == 0 {
        MultipleReaches(m, c, 10 * p);
      }
      if c % p == 0 {
        MultipleSide(m, c, p);
        if c <= m {
          AdmitsBetween(m, c, Below(m, p));
        } else {
          AdmitsBetween(m, c, Above(m, p));
        }
      }
    }
  }

  /** The shortest rendering of a float64 magnitude rounds back to it, and is positive when the magnitude is. */
  lemma ShortestRoundsBack(m: nat)
    requires RoundMagnitude(m) == m
    ensures RoundMagnitude(Shortest(m)) == m
    ensures m >= 1 ==> Shortest(m) >= 1
  {
    ShortestMeaning(m, 0);
    if m >= 1 {
      AdmitsBounds(m, Shortest(m));
    }
  }

  /** The value strconv.FormatFloat(x, 'f', -1, 64) spells for float64(n), sign included. */
  function ShortestValue(n: int): int
  {
    if n < 0 then -(Shortest(RoundMagnitude(-n)) as int) else Shortest(RoundMagnitude(n))
  }

  /** The shortest value of a float64 converts back to that float64. */
  lemma ShortestValueRoundsBack(n: int)
    requires RoundToDouble(n) == n
    ensures RoundToDouble(ShortestValue(n)) == n
  {
    var a: nat := if n < 0 then -n else n;
    ShortestRoundsBack(a);
  }

  /** Up to 2^53 every integer is a float64 whose shortest rendering is itself. */
  lemma ShortestExact(m: nat)
    requires m <= ExactDoubleBound
    ensures Shortest(m) == m
  {
    if m >= 1 {
      var p, v := Step(m), Shortest(m);
      BelowAbove(m, p);
      ShortestMeaning(m, v);
    }
  }

  /** The gaps at 2^63 and just below it, and at 2^60 and just below it. */
  lemma UlpsNearTwoToThe63()
    ensures Ulp(0x8000_0000_0000_0000) == 2048 && Ulp(0x7FFF_FFFF_FFFF_FFFF) == 1024
  {
    assert Ulp(0x8000_0000_0000_0000) == 2 * Ulp(0x4000_0000_0000_0000);
    assert Ulp(0x7FFF_FFFF_FFFF_FFFF) == 2 * Ulp(0x3FFF_FFFF_FFFF_FFFF);
  }

  lemma UlpsNearTwoToThe60()
    ensures Ulp(0x1000_0000_0000_0000) == 256 && Ulp(0x0FFF_FFFF_FFFF_FFFF) == 128
  {
  }

  /** 2^63 - 1 is a tie between 2^63 - 1024 and 2^63 and rounds to the even neighbour 2^63. */
  lemma RoundOfTwoToThe63MinusOne()
    ensures RoundToDouble(0x7FFF_FFFF_FFFF_FFFF) == 0x8000_0000_0000_0000
  {
    UlpsNearTwoToThe63();
  }

  /** Above 2^53 the rendering drops digits: 2^63 is spelled 9223372036854776000. */
  lemma ShortestOfTwoToThe63()
    ensures Shortest(0x8000_0000_0000_0000) == 9223372036854776000
  {
    var m := 0x8000_0000_0000_0000;
    UlpsNearTwoToThe63();
    assert Admits(m, 9223372036854776000);
    assert !HasAdmitted(m, 10000);
    assert Coarsest(m, 1000) == 1000;
    assert Coarsest(m, 100) == 1000;
    assert Coarsest(m, 10) == 1000;
    assert Step(m) == 1000;
  }

  /** 2^60 is spelled 1152921504606847000. */
  lemma ShortestOfTwoToThe60()
    ensures Shortest(0x1000_0000_0000_0000) == 1152921504606847000
  {
    var m := 0x1000_0000_0000_0000;
    UlpsNearTwoToThe60();
    assert Admits(m, 1152921504606847000);
    assert !HasAdmitted(m, 10000);
    assert Coarsest(m, 1000) == 1000;
    assert Coarsest(m, 100) == 1000;
    assert Coarsest(m, 10) == 1000;
    assert Step(m) == 1000;
  }
}
